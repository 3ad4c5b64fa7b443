/** The vault file protocol of storage/storage.go: one encrypted envelope
    file per account and one plaintext registry of account names, both in
    an application directory under the user's configuration root. The JSON
    encoder and decoder stay abstract (`Codec`); the file system is
    FileStore's. Each operation is a method on the `Disk` object, proved
    equal to a function of the old disk state (and of the random stream),
    and the lemmas below are stated about those functions. */
module Storage {
  import opened Wrappers
  import opened Base
  import opened Entry
  import opened FileStore
  import Crypto

  const DataFileName: string := "kryptos_data.json"
  const AccountFileName: string := "kryptos_accounts.json"
  const AppDirName: string := "Kryptos"
  /** 0700: the application directory is owner-only. */
  const DirMode: nat := 448
  /** 0600: every file written is owner read/write only. */
  const FileMode: nat := 384

  /** The on-disk envelope: `{"salt": ..., "entries": ...}`. */
  datatype EncryptedData = EncryptedData(salt: Bytes, encryptedEntries: string)

  /** json.Marshal and json.Unmarshal for the three shapes the package
      stores. Marshalling these types cannot fail. */
  datatype Codec = Codec(
    encodeEntries: seq<PasswordEntry> -> Bytes,
    decodeEntries: Bytes -> Result<seq<PasswordEntry>, Error>,
    encodeEnvelope: EncryptedData -> Bytes,
    decodeEnvelope: Bytes -> Result<EncryptedData, Error>,
    encodeNames: seq<string> -> Bytes,
    decodeNames: Bytes -> Result<seq<string>, Error>)
  {
    /** Unmarshal inverts Marshal for each shape. */
    ghost predicate Valid() {
      && (forall es :: decodeEntries(encodeEntries(es)) == Success(es))
      && (forall env :: decodeEnvelope(encodeEnvelope(env)) == Success(env))
      && (forall names :: decodeNames(encodeNames(names)) == Success(names))
    }
  }

  // ---------------------------------------------------------------------
  // File names

  /** filepath.Join of a directory and a plain file name, without the path
      cleaning. */
  function Join(dir: string, name: string): string {
    dir + "/" + name
  }

  function AppDir(root: string): string {
    Join(root, AppDirName)
  }

  /** The account's file name: the account name, "_", then the fixed suffix. */
  function DataFileNameFor(accountName: string): string {
    accountName + "_" + DataFileName
  }

  function DataPath(root: string, accountName: string): string {
    Join(AppDir(root), DataFileNameFor(accountName))
  }

  function AccountsPath(root: string): string {
    Join(AppDir(root), AccountFileName)
  }

  lemma SuffixCancel(a: string, b: string, suffix: string)
    requires a + suffix == b + suffix
    ensures a == b
  {
    assert |a| == |b|;
    assert a == (a + suffix)[..|a|];
    assert b == (b + suffix)[..|b|];
  }

  /** Different account names get different files. */
  lemma DataPathInjective(root: string, a: string, b: string)
    requires DataPath(root, a) == DataPath(root, b)
    ensures a == b
  {
    var prefix := AppDir(root) + "/";
    assert DataPath(root, a) == prefix + (a + "_" + DataFileName);
    assert DataPath(root, b) == prefix + (b + "_" + DataFileName);
    assert a + "_" + DataFileName == (prefix + (a + "_" + DataFileName))[|prefix|..];
    assert b + "_" + DataFileName == (prefix + (b + "_" + DataFileName))[|prefix|..];
    assert a + "_" + DataFileName == a + ("_" + DataFileName);
    assert b + "_" + DataFileName == b + ("_" + DataFileName);
    SuffixCancel(a, b, "_" + DataFileName);
  }

  /** No account's file is the registry file: the two names end differently. */
  lemma DataPathIsNotAccountsPath(root: string, accountName: string)
    ensures DataPath(root, accountName) != AccountsPath(root)
  {
    var d := DataPath(root, accountName);
    var r := AccountsPath(root);
    var dataTail := "_" + DataFileName;
    assert d == (AppDir(root) + "/" + accountName) + dataTail;
    assert r == (AppDir(root) + "/") + AccountFileName;
    assert d[|d| - 6] == dataTail[|dataTail| - 6] == 'a';
    assert r[|r| - 6] == AccountFileName[|AccountFileName| - 6] == 's';
  }

  /** An account's file is never the application directory itself. */
  lemma DataPathIsNotAppDir(root: string, accountName: string)
    ensures DataPath(root, accountName) != AppDir(root)
    ensures AccountsPath(root) != AppDir(root)
  {
    assert |DataPath(root, accountName)| > |AppDir(root)|;
    assert |AccountsPath(root)| > |AppDir(root)|;
  }

  // ---------------------------------------------------------------------
  // Specification functions

  /** The directory step of GetDataFilePath and GetAccountFilePath:
      find the configuration root and create the application directory
      with owner-only permission when os.Stat reports it missing. */
  function PrepareAppDir(st: DiskState): (r: Result<DiskState, Error>)
    ensures st.configDir.Failure? ==> r == Failure(st.configDir.error)
    ensures r.Success? ==>
              && st.configDir.Success?
              && r.value.files == st.files && r.value.faults == st.faults
              && r.value.configDir == st.configDir
              && st.dirs <= r.value.dirs <= st.dirs + {AppDir(st.configDir.value)}
  {
    match st.configDir
    case Failure(e) => Failure(e)
    case Success(root) =>
      if Exists(st, AppDir(root)) then Success(st)
      else Mkdir(st, AppDir(root), DirMode)
  }

  /** The disk state after the directory step, whether or not it succeeded:
      a failed step leaves the disk as it was; a successful one at most adds
      the application directory. */
  function DirStep(st: DiskState): (r: DiskState)
    ensures PrepareAppDir(st).Failure? ==> r == st
    ensures r.files == st.files && r.faults == st.faults && r.configDir == st.configDir
    ensures st.dirs <= r.dirs
    ensures st.configDir.Success? ==> r.dirs <= st.dirs + {AppDir(st.configDir.value)}
  {
    PrepareAppDir(st).GetOr(st)
  }

  /** The path GetDataFilePath or GetAccountFilePath returns for `name`. */
  function ResolvePath(st: DiskState, name: string): (r: Result<string, Error>)
    ensures r.Success? <==> PrepareAppDir(st).Success?
    ensures r.Success? ==> r.value == Join(AppDir(st.configDir.value), name)
  {
    match PrepareAppDir(st)
    case Failure(e) => Failure(e)
    case Success(_) => Success(Join(AppDir(st.configDir.value), name))
  }

  /** The part of LoadEncryptedData that works on the bytes read: parse the
      envelope, derive the key from the stored salt, decrypt, parse the
      records. The first failure is returned as it is. */
  function OpenVault(prims: Crypto.Primitives, codec: Codec, password: string, data: Bytes)
    : (r: Result<seq<PasswordEntry>, Error>)
    ensures codec.decodeEnvelope(data).Failure? ==> r == Failure(codec.decodeEnvelope(data).error)
    ensures codec.decodeEnvelope(data).Success? ==>
              var key := Crypto.DeriveKeyFromPassword(prims, password, codec.decodeEnvelope(data).value.salt);
              key.Failure? ==> r == Failure(key.error)
    ensures codec.decodeEnvelope(data).Success? ==>
              var env := codec.decodeEnvelope(data).value;
              var key := Crypto.DeriveKeyFromPassword(prims, password, env.salt);
              key.Success? ==>
                var plain := Crypto.DecryptData(prims, env.encryptedEntries, key.value);
                plain.Failure? ==> r == Failure(plain.error)
    ensures r.Success? ==>
              && codec.decodeEnvelope(data).Success?
              && var env := codec.decodeEnvelope(data).value;
                 var key := Crypto.DeriveKeyFromPassword(prims, password, env.salt);
                 && key.Success?
                 && var plain := Crypto.DecryptData(prims, env.encryptedEntries, key.value);
                    && plain.Success? && codec.decodeEntries(plain.value) == r
  {
    match codec.decodeEnvelope(data)
    case Failure(e) => Failure(e)
    case Success(env) =>
      match Crypto.DeriveKeyFromPassword(prims, password, env.salt)
      case Failure(e) => Failure(e)
      case Success(key) =>
        match Crypto.DecryptData(prims, env.encryptedEntries, key)
        case Failure(e) => Failure(e)
        case Success(plain) => codec.decodeEntries(plain)
  }

  /** LoadEncryptedData after the file has been read: a missing file is an
      empty vault and no error; any other read error is returned unchanged. */
  function LoadFrom(prims: Crypto.Primitives, codec: Codec, password: string, read: Result<Bytes, Error>)
    : (r: Result<seq<PasswordEntry>, Error>)
    ensures read.Failure? && read.error.NotExist? ==> r == Success([])
    ensures read.Failure? && !read.error.NotExist? ==> r == Failure(read.error)
    ensures read.Success? ==> r == OpenVault(prims, codec, password, read.value)
  {
    match read
    case Failure(e) => if e.NotExist? then Success([]) else Failure(e)
    case Success(data) => OpenVault(prims, codec, password, data)
  }

  /** What LoadEncryptedData returns on a disk state: the directory step's
      error, or the outcome of reading the account's own file. */
  function LoadResult(st: DiskState, prims: Crypto.Primitives, codec: Codec,
                      accountName: string, password: string): (r: Result<seq<PasswordEntry>, Error>)
    ensures PrepareAppDir(st).Failure? ==> r == Failure(PrepareAppDir(st).error)
    ensures PrepareAppDir(st).Success? ==>
              r == LoadFrom(prims, codec, password, ReadFile(st, DataPath(st.configDir.value, accountName)))
  {
    DataPathIsNotAppDir(if st.configDir.Success? then st.configDir.value else "", accountName);
    match ResolvePath(st, DataFileNameFor(accountName))
    case Failure(e) => Failure(e)
    case Success(path) => LoadFrom(prims, codec, password, ReadFile(DirStep(st), path))
  }

  /** The part of SaveEncryptedData before the write: marshal the records,
      draw a new salt, derive the key, encrypt (drawing a nonce), marshal the
      envelope. A stream too short for the salt fails with nothing drawn;
      a success consumes exactly the salt and the nonce. */
  function SealVault(prims: Crypto.Primitives, codec: Codec, password: string,
                     entries: seq<PasswordEntry>, tape: Bytes): (r: Crypto.Drawn<Bytes>)
    ensures |tape| < Crypto.SaltLen ==> r == Crypto.Drawn(Failure(RandFailure), tape)
    ensures r.result.Success? ==>
              && |tape| >= Crypto.SaltLen + Crypto.NonceSize
              && r.rest == tape[Crypto.SaltLen + Crypto.NonceSize..]
  {
    var plain := codec.encodeEntries(entries);
    var s := Crypto.DrawSalt(tape);
    match s.result
    case Failure(e) => Crypto.Drawn(Failure(e), s.rest)
    case Success(salt) =>
      match Crypto.DeriveKeyFromPassword(prims, password, salt)
      case Failure(e) => Crypto.Drawn(Failure(e), s.rest)
      case Success(key) =>
        var c := Crypto.EncryptDraw(prims, plain, key, s.rest);
        match c.result
        case Failure(e) => Crypto.Drawn(Failure(e), c.rest)
        case Success(ct) => Crypto.Drawn(Success(codec.encodeEnvelope(EncryptedData(salt, ct))), c.rest)
  }

  /** The outcome of a state-changing operation: its error, if any, the
      disk afterwards and what is left of the random stream. */
  datatype Saved = Saved(err: Option<Error>, disk: DiskState, rest: Bytes)

  /** What SaveEncryptedData does to a disk state and a random stream: it
      succeeds exactly when the directory step, the sealing and the write
      succeed, and then the account's file holds the new envelope and no
      other file changes; a failure changes no file. */
  function SaveOutcome(st: DiskState, tape: Bytes, prims: Crypto.Primitives, codec: Codec,
                       accountName: string, password: string, entries: seq<PasswordEntry>): (r: Saved)
    ensures PrepareAppDir(st).Failure? ==> r == Saved(Some(PrepareAppDir(st).error), st, tape)
    ensures PrepareAppDir(st).Success? && SealVault(prims, codec, password, entries, tape).result.Failure? ==>
              r.err == Some(SealVault(prims, codec, password, entries, tape).result.error)
    ensures r.err.None? <==>
              && PrepareAppDir(st).Success?
              && SealVault(prims, codec, password, entries, tape).result.Success?
              && var p := DataPath(st.configDir.value, accountName);
                 p !in st.faults && p !in st.dirs
    ensures r.err.None? ==>
              && PrepareAppDir(st).Success?
              && SealVault(prims, codec, password, entries, tape).result.Success?
              && r.disk.files == st.files[DataPath(st.configDir.value, accountName)
                                          := SealVault(prims, codec, password, entries, tape).result.value]
    ensures r.err.Some? ==> r.disk.files == st.files
  {
    DataPathIsNotAppDir(if st.configDir.Success? then st.configDir.value else "", accountName);
    match ResolvePath(st, DataFileNameFor(accountName))
    case Failure(e) => Saved(Some(e), st, tape)
    case Success(path) =>
      var sealed := SealVault(prims, codec, password, entries, tape);
      match sealed.result
      case Failure(e) => Saved(Some(e), DirStep(st), sealed.rest)
      case Success(bytes) =>
        match Write(DirStep(st), path, bytes, FileMode)
        case Failure(e) => Saved(Some(e), DirStep(st), sealed.rest)
        case Success(st2) => Saved(None, st2, sealed.rest)
  }

  /** What ExportEncryptedData does: copy the account's file to `exportPath`.
      It succeeds exactly when the directory step succeeds, the account's
      file can be read and the destination written; then the destination
      holds the file's bytes and no other file changes. No random bytes are
      drawn, and a failure changes no file. */
  function ExportOutcome(st: DiskState, accountName: string, exportPath: string): (r: Saved)
    ensures PrepareAppDir(st).Failure? ==> r.err == Some(PrepareAppDir(st).error) && r.disk == st
    ensures PrepareAppDir(st).Success? ==>
              var p := DataPath(st.configDir.value, accountName);
              && (ReadFile(st, p).Failure? ==> r.err == Some(ReadFile(st, p).error))
              && (r.err.None? <==>
                    ReadFile(st, p).Success? && exportPath !in st.faults && exportPath !in DirStep(st).dirs)
              && (r.err.None? ==>
                    r.disk.files == st.files[exportPath := st.files[p]] && r.disk.dirs == DirStep(st).dirs)
    ensures r.err.Some? ==> r.disk.files == st.files
    ensures r.rest == []
  {
    DataPathIsNotAppDir(if st.configDir.Success? then st.configDir.value else "", accountName);
    match ResolvePath(st, DataFileNameFor(accountName))
    case Failure(e) => Saved(Some(e), st, [])
    case Success(path) =>
      match ReadFile(DirStep(st), path)
      case Failure(e) => Saved(Some(e), DirStep(st), [])
      case Success(data) =>
        match Write(DirStep(st), exportPath, data, FileMode)
        case Failure(e) => Saved(Some(e), DirStep(st), [])
        case Success(st2) => Saved(None, st2, [])
  }

  /** What ImportEncryptedData does: read `importPath` first, then copy it
      over the account's file. An unreadable source fails before the
      directory step; a success replaces the account's file by the source's
      bytes and changes no other file; a failure changes no file. */
  function ImportOutcome(st: DiskState, accountName: string, importPath: string): (r: Saved)
    ensures ReadFile(st, importPath).Failure? ==> r == Saved(Some(ReadFile(st, importPath).error), st, [])
    ensures ReadFile(st, importPath).Success? && PrepareAppDir(st).Failure? ==>
              r == Saved(Some(PrepareAppDir(st).error), st, [])
    ensures r.err.None? <==>
              && ReadFile(st, importPath).Success?
              && PrepareAppDir(st).Success?
              && var p := DataPath(st.configDir.value, accountName);
                 p !in st.faults && p !in st.dirs
    ensures r.err.None? ==>
              && importPath in st.files && PrepareAppDir(st).Success?
              && r.disk.files == st.files[DataPath(st.configDir.value, accountName) := st.files[importPath]]
    ensures r.err.Some? ==> r.disk.files == st.files
    ensures r.rest == []
  {
    DataPathIsNotAppDir(if st.configDir.Success? then st.configDir.value else "", accountName);
    match ReadFile(st, importPath)
    case Failure(e) => Saved(Some(e), st, [])
    case Success(data) =>
      match ResolvePath(st, DataFileNameFor(accountName))
      case Failure(e) => Saved(Some(e), st, [])
      case Success(path) =>
        match Write(DirStep(st), path, data, FileMode)
        case Failure(e) => Saved(Some(e), DirStep(st), [])
        case Success(st2) => Saved(None, st2, [])
  }

  /** What LoadAccounts returns: None stands for Go's nil, which every
      failure other than a missing registry file produces. */
  function LoadAccountsResult(st: DiskState, codec: Codec): (r: Option<seq<string>>)
    ensures PrepareAppDir(st).Failure? ==> r == None
    ensures PrepareAppDir(st).Success? ==>
              var read := ReadFile(st, AccountsPath(st.configDir.value));
              && (read.Failure? && read.error.NotExist? ==> r == Some([]))
              && (read.Failure? && !read.error.NotExist? ==> r == None)
              && (read.Success? && codec.decodeNames(read.value).Failure? ==> r == None)
              && (read.Success? && codec.decodeNames(read.value).Success? ==>
                    r == Some(codec.decodeNames(read.value).value))
  {
    DataPathIsNotAppDir(if st.configDir.Success? then st.configDir.value else "", "");
    match ResolvePath(st, AccountFileName)
    case Failure(_) => None
    case Success(path) =>
      match ReadFile(DirStep(st), path)
      case Failure(e) => if e.NotExist? then Some([]) else None
      case Success(data) =>
        match codec.decodeNames(data)
        case Failure(_) => None
        case Success(names) => Some(names)
  }

  /** What SaveAccounts does to a disk state: it succeeds exactly when the
      directory step succeeds and the registry file can be written; then the
      registry holds the marshalled names and no other file changes; a
      failure changes no file. */
  function SaveAccountsOutcome(st: DiskState, codec: Codec, names: seq<string>): (r: Saved)
    ensures PrepareAppDir(st).Failure? ==> r == Saved(Some(PrepareAppDir(st).error), st, [])
    ensures r.err.None? <==>
              && PrepareAppDir(st).Success?
              && var p := AccountsPath(st.configDir.value);
                 p !in st.faults && p !in st.dirs
    ensures r.err.None? ==>
              && PrepareAppDir(st).Success?
              && r.disk.files == st.files[AccountsPath(st.configDir.value) := codec.encodeNames(names)]
    ensures r.err.Some? ==> r.disk.files == st.files
    ensures r.rest == []
  {
    DataPathIsNotAppDir(if st.configDir.Success? then st.configDir.value else "", "");
    match ResolvePath(st, AccountFileName)
    case Failure(e) => Saved(Some(e), st, [])
    case Success(path) =>
      match Write(DirStep(st), path, codec.encodeNames(names), FileMode)
      case Failure(e) => Saved(Some(e), DirStep(st), [])
      case Success(st2) => Saved(None, st2, [])
  }

  // ---------------------------------------------------------------------
  // The operations

  /** The directory code GetDataFilePath and GetAccountFilePath share. */
  method PrepareAppDirOn(disk: Disk) returns (dir: Result<string, Error>)
    modifies disk
    ensures PrepareAppDir(old(disk.State())).Failure? ==>
              dir == Failure(PrepareAppDir(old(disk.State())).error)
    ensures PrepareAppDir(old(disk.State())).Success? ==>
              dir == Success(AppDir(disk.configDir.value))
    ensures disk.State() == DirStep(old(disk.State()))
  {
    if disk.configDir.Failure? {
      return Failure(disk.configDir.error);
    }
    var appDir := Join(disk.configDir.value, AppDirName);
    if !Exists(disk.State(), appDir) {
      var err := disk.MkdirAll(appDir, DirMode);
      if err.Some? {
        return Failure(err.value);
      }
    }
    return Success(appDir);
  }

  method GetDataFilePath(disk: Disk, accountName: string) returns (path: Result<string, Error>)
    modifies disk
    ensures path == ResolvePath(old(disk.State()), DataFileNameFor(accountName))
    ensures disk.State() == DirStep(old(disk.State()))
  {
    var appDir := PrepareAppDirOn(disk);
    if appDir.Failure? {
      return Failure(appDir.error);
    }
    return Success(Join(appDir.value, accountName + "_" + DataFileName));
  }

  method GetAccountFilePath(disk: Disk) returns (path: Result<string, Error>)
    modifies disk
    ensures path == ResolvePath(old(disk.State()), AccountFileName)
    ensures disk.State() == DirStep(old(disk.State()))
  {
    var appDir := PrepareAppDirOn(disk);
    if appDir.Failure? {
      return Failure(appDir.error);
    }
    return Success(Join(appDir.value, AccountFileName));
  }

  method LoadEncryptedData(disk: Disk, prims: Crypto.Primitives, codec: Codec,
                           accountName: string, masterPassword: string)
    returns (entries: Result<seq<PasswordEntry>, Error>)
    modifies disk
    ensures entries == LoadResult(old(disk.State()), prims, codec, accountName, masterPassword)
    ensures disk.State() == DirStep(old(disk.State()))
  {
    var path := GetDataFilePath(disk, accountName);
    if path.Failure? {
      return Failure(path.error);
    }
    var data := disk.Read(path.value);
    if data.Failure? {
      if data.error.NotExist? {
        return Success([]);
      }
      return Failure(data.error);
    }
    var envelope := codec.decodeEnvelope(data.value);
    if envelope.Failure? {
      return Failure(envelope.error);
    }
    var key := Crypto.DeriveKeyFromPassword(prims, masterPassword, envelope.value.salt);
    if key.Failure? {
      return Failure(key.error);
    }
    var plain := Crypto.DecryptData(prims, envelope.value.encryptedEntries, key.value);
    if plain.Failure? {
      return Failure(plain.error);
    }
    return codec.decodeEntries(plain.value);
  }

  method SaveEncryptedData(disk: Disk, rng: Crypto.Entropy, prims: Crypto.Primitives, codec: Codec,
                           accountName: string, masterPassword: string, entries: seq<PasswordEntry>)
    returns (err: Option<Error>)
    modifies disk, rng
    ensures Saved(err, disk.State(), rng.tape)
            == SaveOutcome(old(disk.State()), old(rng.tape), prims, codec, accountName, masterPassword, entries)
  {
    var path := GetDataFilePath(disk, accountName);
    if path.Failure? {
      return Some(path.error);
    }
    var plain := codec.encodeEntries(entries);
    var salt := Crypto.GenerateSalt(rng);
    if salt.Failure? {
      return Some(salt.error);
    }
    var key := Crypto.DeriveKeyFromPassword(prims, masterPassword, salt.value);
    if key.Failure? {
      return Some(key.error);
    }
    var ct := Crypto.EncryptData(prims, rng, plain, key.value);
    if ct.Failure? {
      return Some(ct.error);
    }
    var dataToSave := codec.encodeEnvelope(EncryptedData(salt.value, ct.value));
    err := disk.WriteFile(path.value, dataToSave, FileMode);
  }

  /** The password parameter is accepted and never read. */
  method ExportEncryptedData(disk: Disk, accountName: string, masterPassword: string, exportPath: string)
    returns (err: Option<Error>)
    modifies disk
    ensures Saved(err, disk.State(), []) == ExportOutcome(old(disk.State()), accountName, exportPath)
  {
    var path := GetDataFilePath(disk, accountName);
    if path.Failure? {
      return Some(path.error);
    }
    var data := disk.Read(path.value);
    if data.Failure? {
      return Some(data.error);
    }
    err := disk.WriteFile(exportPath, data.value, FileMode);
  }

  /** The password parameter is accepted and never read. */
  method ImportEncryptedData(disk: Disk, accountName: string, masterPassword: string, importPath: string)
    returns (err: Option<Error>)
    modifies disk
    ensures Saved(err, disk.State(), []) == ImportOutcome(old(disk.State()), accountName, importPath)
  {
    var importData := disk.Read(importPath);
    if importData.Failure? {
      return Some(importData.error);
    }
    var path := GetDataFilePath(disk, accountName);
    if path.Failure? {
      return Some(path.error);
    }
    err := disk.WriteFile(path.value, importData.value, FileMode);
  }

  method LoadAccounts(disk: Disk, codec: Codec) returns (accounts: Option<seq<string>>)
    modifies disk
    ensures accounts == LoadAccountsResult(old(disk.State()), codec)
    ensures disk.State() == DirStep(old(disk.State()))
  {
    var path := GetAccountFilePath(disk);
    if path.Failure? {
      return None;
    }
    var data := disk.Read(path.value);
    if data.Failure? {
      if data.error.NotExist? {
        return Some([]);
      }
      return None;
    }
    var names := codec.decodeNames(data.value);
    if names.Failure? {
      return None;
    }
    return Some(names.value);
  }

  method SaveAccounts(disk: Disk, codec: Codec, accounts: seq<string>) returns (err: Option<Error>)
    modifies disk
    ensures Saved(err, disk.State(), []) == SaveAccountsOutcome(old(disk.State()), codec, accounts)
  {
    var path := GetAccountFilePath(disk);
    if path.Failure? {
      return Some(path.error);
    }
    err := disk.WriteFile(path.value, codec.encodeNames(accounts), FileMode);
  }

  // ---------------------------------------------------------------------
  // Properties

  /** After the directory step succeeded once, it changes nothing more. */
  lemma DirStepStable(st: DiskState, st2: DiskState)
    requires PrepareAppDir(st).Success?
    requires st2.configDir == st.configDir
    requires DirStep(st).files.Keys <= st2.files.Keys && DirStep(st).dirs <= st2.dirs
    ensures PrepareAppDir(st2) == Success(st2) && DirStep(st2) == st2
  {
    var root := st.configDir.value;
    assert Exists(DirStep(st), AppDir(root));
  }

  /** What a save seals opens again under the same password. */
  lemma SealOpenRoundTrip(prims: Crypto.Primitives, codec: Codec, password: string,
                          entries: seq<PasswordEntry>, tape: Bytes)
    requires prims.Valid() && codec.Valid()
    requires SealVault(prims, codec, password, entries, tape).result.Success?
    ensures OpenVault(prims, codec, password, SealVault(prims, codec, password, entries, tape).result.value)
            == Success(entries)
  {
    var plain := codec.encodeEntries(entries);
    var s := Crypto.DrawSalt(tape);
    var salt := s.result.value;
    var key := Crypto.DeriveKeyFromPassword(prims, password, salt).value;
    var c := Crypto.EncryptDraw(prims, plain, key, s.rest);
    Crypto.EncryptDecryptRoundTrip(prims, plain, key, s.rest);
    var env := EncryptedData(salt, c.result.value);
    assert codec.decodeEnvelope(codec.encodeEnvelope(env)) == Success(env);
    assert codec.decodeEntries(plain) == Success(entries);
  }

  /** The envelope a save writes carries a salt drawn in that very save:
      the first 16 bytes of the stream it was given; the next 12 are the
      nonce of the ciphertext; nothing of an earlier file is reused. */
  lemma SealVaultDrawsFreshSalt(prims: Crypto.Primitives, codec: Codec, password: string,
                                entries: seq<PasswordEntry>, tape: Bytes)
    requires codec.Valid()
    requires SealVault(prims, codec, password, entries, tape).result.Success?
    ensures var d := SealVault(prims, codec, password, entries, tape);
            var key := Crypto.DeriveKeyFromPassword(prims, password, tape[..Crypto.SaltLen]);
            && |tape| >= Crypto.SaltLen + Crypto.NonceSize
            && d.rest == tape[Crypto.SaltLen + Crypto.NonceSize..]
            && key.Success?
            && codec.decodeEnvelope(d.result.value)
               == Success(EncryptedData(tape[..Crypto.SaltLen],
                    Crypto.Frame(prims, key.value, tape[Crypto.SaltLen..Crypto.SaltLen + Crypto.NonceSize],
                                 codec.encodeEntries(entries))))
  {
    var s := Crypto.DrawSalt(tape);
    var salt := s.result.value;
    var key := Crypto.DeriveKeyFromPassword(prims, password, salt).value;
    var c := Crypto.EncryptDraw(prims, codec.encodeEntries(entries), key, s.rest);
    assert s.rest[..Crypto.NonceSize] == tape[Crypto.SaltLen..Crypto.SaltLen + Crypto.NonceSize];
    assert s.rest[Crypto.NonceSize..] == tape[Crypto.SaltLen + Crypto.NonceSize..];
    var env := EncryptedData(salt, c.result.value);
    assert codec.decodeEnvelope(codec.encodeEnvelope(env)) == Success(env);
  }

  /** A load of an account whose file does not exist is an empty vault and
      no error. */
  lemma LoadMissingFileIsEmpty(st: DiskState, prims: Crypto.Primitives, codec: Codec,
                               accountName: string, password: string)
    requires PrepareAppDir(st).Success?
    requires var p := DataPath(st.configDir.value, accountName);
               p !in st.faults && p !in st.files && p !in st.dirs
    ensures LoadResult(st, prims, codec, accountName, password) == Success([])
  {
    DataPathIsNotAppDir(st.configDir.value, accountName);
  }

  /** Save writes the whole account file: the new content is the fresh
      envelope alone, whatever was there before, and no other file changes. */
  lemma SaveReplacesWholeFile(st: DiskState, tape: Bytes, prims: Crypto.Primitives, codec: Codec,
                              accountName: string, password: string, entries: seq<PasswordEntry>)
    requires SaveOutcome(st, tape, prims, codec, accountName, password, entries).err.None?
    ensures var s := SaveOutcome(st, tape, prims, codec, accountName, password, entries);
            && s.disk.files == st.files[DataPath(st.configDir.value, accountName)
                                        := SealVault(prims, codec, password, entries, tape).result.value]
            && s.rest == SealVault(prims, codec, password, entries, tape).rest
  {
  }

  /** Round trip: loading with the password a save used returns exactly the
      records saved, and the load changes nothing on disk. */
  lemma SaveThenLoad(st: DiskState, tape: Bytes, prims: Crypto.Primitives, codec: Codec,
                     accountName: string, password: string, entries: seq<PasswordEntry>)
    requires prims.Valid() && codec.Valid()
    requires SaveOutcome(st, tape, prims, codec, accountName, password, entries).err.None?
    ensures var s := SaveOutcome(st, tape, prims, codec, accountName, password, entries);
            && LoadResult(s.disk, prims, codec, accountName, password) == Success(entries)
            && DirStep(s.disk) == s.disk
  {
    var s := SaveOutcome(st, tape, prims, codec, accountName, password, entries);
    DirStepStable(st, s.disk);
    SealOpenRoundTrip(prims, codec, password, entries, tape);
  }

  /** Full-snapshot semantics: after two saves the file holds only the second
      envelope, loading returns only the second record set, and the second
      salt was drawn after the first save's salt and nonce. */
  lemma LaterSaveSupersedes(st: DiskState, tape: Bytes, prims: Crypto.Primitives, codec: Codec,
                            accountName: string, password: string,
                            first: seq<PasswordEntry>, second: seq<PasswordEntry>)
    requires prims.Valid() && codec.Valid()
    requires SaveOutcome(st, tape, prims, codec, accountName, password, first).err.None?
    requires var s1 := SaveOutcome(st, tape, prims, codec, accountName, password, first);
               SaveOutcome(s1.disk, s1.rest, prims, codec, accountName, password, second).err.None?
    ensures var s1 := SaveOutcome(st, tape, prims, codec, accountName, password, first);
            var s2 := SaveOutcome(s1.disk, s1.rest, prims, codec, accountName, password, second);
            var path := DataPath(st.configDir.value, accountName);
            && s2.disk.files[path] == SealVault(prims, codec, password, second, s1.rest).result.value
            && LoadResult(s2.disk, prims, codec, accountName, password) == Success(second)
            && s1.rest == tape[Crypto.SaltLen + Crypto.NonceSize..]
            && codec.decodeEnvelope(s1.disk.files[path]).value.salt == tape[..Crypto.SaltLen]
            && codec.decodeEnvelope(s2.disk.files[path]).value.salt
               == tape[Crypto.SaltLen + Crypto.NonceSize..][..Crypto.SaltLen]
  {
    var s1 := SaveOutcome(st, tape, prims, codec, accountName, password, first);
    SaveReplacesWholeFile(st, tape, prims, codec, accountName, password, first);
    SaveReplacesWholeFile(s1.disk, s1.rest, prims, codec, accountName, password, second);
    SaveThenLoad(s1.disk, s1.rest, prims, codec, accountName, password, second);
    SealVaultDrawsFreshSalt(prims, codec, password, first, tape);
    SealVaultDrawsFreshSalt(prims, codec, password, second, s1.rest);
  }

  /** Saving a vault never touches the account registry file. */
  lemma VaultSaveLeavesRegistry(st: DiskState, tape: Bytes, prims: Crypto.Primitives, codec: Codec,
                                accountName: string, password: string, entries: seq<PasswordEntry>)
    requires SaveOutcome(st, tape, prims, codec, accountName, password, entries).err.None?
    ensures var s := SaveOutcome(st, tape, prims, codec, accountName, password, entries);
            var r := AccountsPath(st.configDir.value);
            && (r in s.disk.files <==> r in st.files)
            && (r in st.files ==> s.disk.files[r] == st.files[r])
  {
    DataPathIsNotAccountsPath(st.configDir.value, accountName);
  }

  /** Export copies the account file's bytes unchanged to the destination,
      which is the only file that changes. */
  lemma ExportCopiesBytes(st: DiskState, accountName: string, exportPath: string)
    requires ExportOutcome(st, accountName, exportPath).err.None?
    ensures var p := DataPath(st.configDir.value, accountName);
            && p in st.files
            && ExportOutcome(st, accountName, exportPath).disk.files == st.files[exportPath := st.files[p]]
  {
    DataPathIsNotAppDir(st.configDir.value, accountName);
  }

  /** Exporting an account that has no file is an error, not an empty copy. */
  lemma ExportOfMissingFileFails(st: DiskState, accountName: string, exportPath: string)
    requires PrepareAppDir(st).Success?
    requires var p := DataPath(st.configDir.value, accountName);
               p !in st.faults && p !in st.files && p !in st.dirs
    ensures ExportOutcome(st, accountName, exportPath).err
            == Some(NotExist(DataPath(st.configDir.value, accountName)))
  {
    DataPathIsNotAppDir(st.configDir.value, accountName);
  }

  /** Import copies the source file's bytes, whatever they are, over the
      account file, which is the only file that changes. */
  lemma ImportCopiesBytes(st: DiskState, accountName: string, importPath: string)
    requires ImportOutcome(st, accountName, importPath).err.None?
    ensures var p := DataPath(st.configDir.value, accountName);
            && importPath in st.files
            && ImportOutcome(st, accountName, importPath).disk.files == st.files[p := st.files[importPath]]
  {
  }

  /** After a successful import the account loads as the imported bytes
      open, and the directory step has nothing left to do. */
  lemma ImportThenLoad(st: DiskState, prims: Crypto.Primitives, codec: Codec,
                       accountName: string, importPath: string, password: string)
    requires ImportOutcome(st, accountName, importPath).err.None?
    ensures importPath in st.files
    ensures var after := ImportOutcome(st, accountName, importPath).disk;
            && LoadResult(after, prims, codec, accountName, password)
               == OpenVault(prims, codec, password, st.files[importPath])
            && DirStep(after) == after
  {
    var after := ImportOutcome(st, accountName, importPath).disk;
    DirStepStable(st, after);
  }

  /** Export to a path, import from it into another account: the second
      account then loads, under any password, exactly as the first did. */
  lemma ExportImportPreservesVault(st: DiskState, source: string, target: string, path: string,
                                   prims: Crypto.Primitives, codec: Codec, password: string)
    requires ExportOutcome(st, source, path).err.None?
    requires ImportOutcome(ExportOutcome(st, source, path).disk, target, path).err.None?
    ensures var after := ImportOutcome(ExportOutcome(st, source, path).disk, target, path).disk;
            LoadResult(after, prims, codec, target, password) == LoadResult(st, prims, codec, source, password)
  {
    var root := st.configDir.value;
    var e := ExportOutcome(st, source, path);
    var i := ImportOutcome(e.disk, target, path);
    ExportCopiesBytes(st, source, path);
    ImportCopiesBytes(e.disk, target, path);
    DataPathIsNotAppDir(root, source);
    DataPathIsNotAppDir(root, target);
    DirStepStable(st, e.disk);
    DirStepStable(e.disk, i.disk);
    var data := st.files[DataPath(root, source)];
    assert ReadFile(DirStep(st), DataPath(root, source)) == Success(data);
    assert ReadFile(i.disk, DataPath(root, target)) == Success(data);
  }

  /** A missing registry file is an empty list. */
  lemma MissingRegistryIsEmpty(st: DiskState, codec: Codec)
    requires PrepareAppDir(st).Success?
    requires var p := AccountsPath(st.configDir.value);
               p !in st.faults && p !in st.files && p !in st.dirs
    ensures LoadAccountsResult(st, codec) == Some([])
  {
    DataPathIsNotAppDir(st.configDir.value, "");
  }

  /** A registry file that is there but does not parse gives nil. */
  lemma BadRegistryIsNil(st: DiskState, codec: Codec)
    requires PrepareAppDir(st).Success?
    requires var p := AccountsPath(st.configDir.value);
               p !in st.faults && p !in st.dirs && p in st.files && codec.decodeNames(st.files[p]).Failure?
    ensures LoadAccountsResult(st, codec) == None
  {
    DataPathIsNotAppDir(st.configDir.value, "");
  }

  /** Saving the registry and loading it again gives the same names in the
      same order. */
  lemma AccountsRoundTrip(st: DiskState, codec: Codec, names: seq<string>)
    requires codec.Valid()
    requires SaveAccountsOutcome(st, codec, names).err.None?
    ensures LoadAccountsResult(SaveAccountsOutcome(st, codec, names).disk, codec) == Some(names)
  {
    var s := SaveAccountsOutcome(st, codec, names);
    DirStepStable(st, s.disk);
    assert codec.decodeNames(codec.encodeNames(names)) == Success(names);
  }

  /** Loading is repeatable: a second load sees the same result, and the
      directory step does nothing the second time. */
  lemma LoadIsRepeatable(st: DiskState, prims: Crypto.Primitives, codec: Codec,
                         accountName: string, password: string)
    ensures LoadResult(DirStep(st), prims, codec, accountName, password)
            == LoadResult(st, prims, codec, accountName, password)
    ensures DirStep(DirStep(st)) == DirStep(st)
  {
    if PrepareAppDir(st).Success? {
      DirStepStable(st, DirStep(st));
    }
  }

  /** A successful vault save leaves what LoadAccounts reads unchanged. */
  lemma VaultSaveKeepsRegistryLoad(st: DiskState, tape: Bytes, prims: Crypto.Primitives, codec: Codec,
                                   accountName: string, password: string, entries: seq<PasswordEntry>)
    requires SaveOutcome(st, tape, prims, codec, accountName, password, entries).err.None?
    ensures LoadAccountsResult(SaveOutcome(st, tape, prims, codec, accountName, password, entries).disk, codec)
            == LoadAccountsResult(st, codec)
  {
    var s := SaveOutcome(st, tape, prims, codec, accountName, password, entries);
    DirStepStable(st, s.disk);
    VaultSaveLeavesRegistry(st, tape, prims, codec, accountName, password, entries);
    DataPathIsNotAppDir(st.configDir.value, accountName);
    var r := AccountsPath(st.configDir.value);
    assert ReadFile(s.disk, r) == ReadFile(DirStep(st), r);
  }
}

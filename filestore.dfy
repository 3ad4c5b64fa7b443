/** The operating-system file store the storage package reads and writes
    through os.ReadFile, os.WriteFile, os.Stat and os.MkdirAll: regular
    files with their contents, directories, recorded permission bits, the
    paths the system refuses to touch, and the outcome of os.UserConfigDir. */
module FileStore {
  import opened Wrappers
  import opened Base

  datatype DiskState = DiskState(
    files: map<string, Bytes>,
    dirs: set<string>,
    modes: map<string, nat>,
    /** paths on which every operation fails with the given error code */
    faults: map<string, nat>,
    configDir: Result<string, Error>)

  /** os.Stat succeeds. */
  predicate Exists(st: DiskState, path: string) {
    path in st.files || path in st.dirs
  }

  /** os.ReadFile */
  function ReadFile(st: DiskState, path: string): (r: Result<Bytes, Error>)
    ensures r.Success? <==> path !in st.faults && path !in st.dirs && path in st.files
    ensures r.Success? ==> r.value == st.files[path]
    ensures r == Failure(NotExist(path)) <==> path !in st.faults && !Exists(st, path)
  {
    if path in st.faults then Failure(IoFault(path, st.faults[path]))
    else if path in st.dirs then Failure(IsDirectory(path))
    else if path in st.files then Success(st.files[path])
    else Failure(NotExist(path))
  }

  /** What os.WriteFile does: replaces the whole content; the permission bits apply
      only when the file is created. */
  function Write(st: DiskState, path: string, data: Bytes, mode: nat): (r: Result<DiskState, Error>)
    ensures r.Success? <==> path !in st.faults && path !in st.dirs
    ensures r.Success? ==>
              && r.value.files == st.files[path := data]
              && r.value.dirs == st.dirs && r.value.faults == st.faults
              && r.value.configDir == st.configDir
              && r.value.modes == (if path in st.files then st.modes else st.modes[path := mode])
  {
    if path in st.faults then Failure(IoFault(path, st.faults[path]))
    else if path in st.dirs then Failure(IsDirectory(path))
    else
      var modes := if path in st.files then st.modes else st.modes[path := mode];
      Success(st.(files := st.files[path := data], modes := modes))
  }

  /** What os.MkdirAll does, for one directory level: nothing to do when the directory
      is there; the parents are not modelled. */
  function Mkdir(st: DiskState, path: string, mode: nat): (r: Result<DiskState, Error>)
    ensures r.Success? <==> path in st.dirs || (path !in st.faults && path !in st.files)
    ensures r.Success? ==>
              && r.value.files == st.files && r.value.dirs == st.dirs + {path}
              && r.value.faults == st.faults && r.value.configDir == st.configDir
  {
    if path in st.dirs then Success(st)
    else if path in st.faults then Failure(IoFault(path, st.faults[path]))
    else if path in st.files then Failure(NotDirectory(path))
    else Success(st.(dirs := st.dirs + {path}, modes := st.modes[path := mode]))
  }

  /** The file system as a mutable object: its files, directories and
      permission bits change; the refusals and the configuration root do not. */
  class Disk {
    var files: map<string, Bytes>
    var dirs: set<string>
    var modes: map<string, nat>
    const faults: map<string, nat>
    const configDir: Result<string, Error>

    constructor (files: map<string, Bytes>, dirs: set<string>, faults: map<string, nat>,
                 configDir: Result<string, Error>)
      ensures State() == DiskState(files, dirs, map[], faults, configDir)
    {
      this.files, this.dirs, this.modes := files, dirs, map[];
      this.faults, this.configDir := faults, configDir;
    }

    function State(): DiskState
      reads this
    {
      DiskState(files, dirs, modes, faults, configDir)
    }

    /** os.ReadFile, which changes nothing: it yields the file's bytes when
        `path` is a regular file the system lets us read, and an error
        otherwise. */
    function Read(path: string): (r: Result<Bytes, Error>)
      reads this
      ensures r.Success? <==> path !in faults && path !in dirs && path in files
      ensures r.Success? ==> r.value == files[path]
    {
      ReadFile(State(), path)
    }

    /** os.WriteFile, performed on the object. */
    method WriteFile(path: string, data: Bytes, mode: nat) returns (err: Option<Error>)
      modifies this
      ensures Write(old(State()), path, data, mode).Success? ==>
                err == None && State() == Write(old(State()), path, data, mode).value
      ensures Write(old(State()), path, data, mode).Failure? ==>
                err == Some(Write(old(State()), path, data, mode).error)
                && State() == old(State())
    {
      match Write(State(), path, data, mode)
      case Failure(e) =>
        err := Some(e);
      case Success(st) =>
        files, modes := st.files, st.modes;
        err := None;
    }

    /** os.MkdirAll, performed on the object. */
    method MkdirAll(path: string, mode: nat) returns (err: Option<Error>)
      modifies this
      ensures Mkdir(old(State()), path, mode).Success? ==>
                err == None && State() == Mkdir(old(State()), path, mode).value
      ensures Mkdir(old(State()), path, mode).Failure? ==>
                err == Some(Mkdir(old(State()), path, mode).error)
                && State() == old(State())
    {
      match Mkdir(State(), path, mode)
      case Failure(e) =>
        err := Some(e);
      case Success(st) =>
        dirs, modes := st.dirs, st.modes;
        err := None;
    }
  }
}

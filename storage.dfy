/** The part of the filesystem the splitter touches: a set of directories and
    a map from file path to the table stored there, with `os.path.join`,
    `pd.read_csv`, `os.makedirs(..., exist_ok=True)` and `DataFrame.to_csv`. */
module Storage {
  import opened Wrappers
  import opened Frames

  type Path = string

  /** `os.path.join(dir, name)`: an absolute `name` replaces `dir`; otherwise a
      `/` is inserted unless `dir` is empty or already ends in one. */
  function Join(dir: Path, name: Path): Path {
    if |name| > 0 && name[0] == '/' then name
    else if dir == "" || dir[|dir| - 1] == '/' then dir + name
    else dir + "/" + name
  }

  /** A relative name is always the tail of the joined path. */
  lemma JoinEndsWith(dir: Path, name: Path)
    requires |name| > 0 && name[0] != '/'
    ensures |Join(dir, name)| >= |name|
    ensures Join(dir, name)[|Join(dir, name)| - |name|..] == name
  {
  }

  /** `pd.read_csv(path)` with the parsing left out: the stored table, or
      `None` when there is no file at `path`. */
  function Open(files: map<Path, Table>, path: Path): Option<Table>
  {
    if path in files then Some(files[path]) else None
  }

  class Disk {
    var dirs: set<Path>
    var files: map<Path, Table>

    /** Every stored table is one pandas could have built. */
    ghost predicate Valid()
      reads this
    {
      forall p :: p in files ==> WellFormed(files[p])
    }

    constructor (dirs: set<Path>, files: map<Path, Table>)
      requires forall p :: p in files ==> WellFormed(files[p])
      ensures Valid() && this.dirs == dirs && this.files == files
    {
      this.dirs := dirs;
      this.files := files;
    }

    /** `os.makedirs(dir, exist_ok=True)`: afterwards `dir` exists; calling it
        for a directory that already exists changes nothing. */
    method MakeDirs(dir: Path)
      requires Valid()
      modifies this
      ensures Valid()
      ensures dirs == old(dirs) + {dir} && files == old(files)
      ensures old(dir in dirs) ==> dirs == old(dirs)
    {
      dirs := dirs + {dir};
    }

    /** `t.to_csv(os.path.join(dir, name), index=False)`: the file is created or
        overwritten with exactly the table's header and rows; no other file
        changes. */
    method WriteCsv(dir: Path, name: Path, t: Table)
      requires Valid() && WellFormed(t) && dir in dirs
      modifies this
      ensures Valid() && dirs == old(dirs)
      ensures files == old(files)[Join(dir, name) := t]
    {
      files := files[Join(dir, name) := t];
    }
  }
}

/**
  An abstract snapshot of the part of the filesystem the extension manager
  looks at. A path is a sequence of segments, so the separator of the host
  operating system plays no part. A regular file carries its text; a
  directory is only known to exist.
 */
module FileSystem {

  type Path = seq<string>

  datatype FileSystem = FileSystem(files: map<Path, string>, dirs: set<Path>)

  /** The path of the entry `name` directly inside `dir` (os.path.join). */
  function Join(dir: Path, name: string): (p: Path)
    ensures |p| == |dir| + 1 && p[..|dir|] == dir && p[|dir|] == name
  {
    dir + [name]
  }

  /**
    The module name an extension hook is imported under: the path written
    with the host separator, each separator then replaced by a dot.
   */
  function DottedName(p: Path): (s: string) {
    if |p| == 0 then "" else if |p| == 1 then p[0] else p[0] + "." + DottedName(p[1..])
  }

  /** os.path.isfile */
  predicate IsFile(fs: FileSystem, p: Path) {
    p in fs.files
  }

  /** os.path.isdir */
  predicate IsDir(fs: FileSystem, p: Path) {
    p in fs.dirs
  }

  /** The names os.listdir reports for `dir`: every file or directory one level below it. */
  function Entries(fs: FileSystem, dir: Path): (names: set<string>)
    ensures forall e :: e in names <==> IsFile(fs, Join(dir, e)) || IsDir(fs, Join(dir, e))
  {
    var names := set p | p in fs.files.Keys + fs.dirs && |p| == |dir| + 1 && p[..|dir|] == dir :: p[|dir|];
    assert forall e :: IsFile(fs, Join(dir, e)) || IsDir(fs, Join(dir, e)) ==> e in names by {
      forall e | IsFile(fs, Join(dir, e)) || IsDir(fs, Join(dir, e)) ensures e in names {
        var p := Join(dir, e);
        assert p in fs.files.Keys + fs.dirs;
      }
    }
    assert forall e :: e in names ==> Join(dir, e) in fs.files.Keys + fs.dirs by {
      forall e | e in names ensures Join(dir, e) in fs.files.Keys + fs.dirs {
        var p :| p in fs.files.Keys + fs.dirs && |p| == |dir| + 1 && p[..|dir|] == dir && p[|dir|] == e;
        assert p == Join(dir, e);
      }
    }
    names
  }

  /**
    `listing` is one possible result of os.listdir(dir): it holds every entry
    of `dir` exactly once, in an order the host chooses.
   */
  ghost predicate IsListing(fs: FileSystem, dir: Path, listing: seq<string>) {
    && (forall e :: e in listing <==> e in Entries(fs, dir))
    && (forall i, j :: 0 <= i < j < |listing| ==> listing[i] != listing[j])
  }
}

/**
 The part of the file system the program reads, passed in as a value:
 directory listings (`os.scandir`), what each glob pattern matches
 (`glob.glob`), and the frame each existing CSV file reads as
 (`os.path.exists` and `pd.read_csv`).
 */
module Disk {
  import opened Wrappers
  import opened Frame
  import opened Paths

  /** One entry of a directory listing. */
  datatype DirEntry = DirEntry(name: string, isDir: bool)

  datatype Disk = Disk(
    dirs: map<string, seq<DirEntry>>,   // the directories that exist, with their entries in listing order
    globs: map<string, seq<string>>,    // the files a pattern matches, in the order glob returns them; absent means none
    files: map<string, Table>           // the files that exist, each with the frame it reads as
  )

  /** Entry names are non-empty and have no separator, globs list existing files, and every file reads as a well-formed frame. */
  predicate Valid(fs: Disk) {
    && (forall d, k :: d in fs.dirs && 0 <= k < |fs.dirs[d]| ==> fs.dirs[d][k].name != "" && Plain(fs.dirs[d][k].name))
    && (forall p, k :: p in fs.globs && 0 <= k < |fs.globs[p]| ==> fs.globs[p][k] in fs.files)
    && (forall f :: f in fs.files ==> WellFormed(fs.files[f]))
  }

  /** `DirEntry.path`: the directory and the name, with a separator between them unless the directory is empty or ends with one. */
  function ChildPath(dir: string, name: string): string {
    if |dir| > 0 && dir[|dir| - 1] != '/' then dir + "/" + name else dir + name
  }

  /** The paths of the entries that are directories, in listing order. */
  function DirPaths(dir: string, entries: seq<DirEntry>): seq<string> {
    if |entries| == 0 then []
    else (if entries[0].isDir then [ChildPath(dir, entries[0].name)] else []) + DirPaths(dir, entries[1..])
  }

  /** `[f.path for f in os.scandir(dir) if f.is_dir()]`; None where `scandir` raises because the directory does not exist. */
  function ScanDirs(fs: Disk, dir: string): Option<seq<string>> {
    if dir in fs.dirs then Some(DirPaths(dir, fs.dirs[dir])) else None
  }

  /** `glob.glob(pattern)`. */
  function Glob(fs: Disk, pattern: string): (r: seq<string>)
    ensures Valid(fs) ==> forall k :: 0 <= k < |r| ==> r[k] in fs.files
  {
    if pattern in fs.globs then fs.globs[pattern] else []
  }

  /** `[pd.read_csv(f) for f in files]`. */
  function ReadAll(fs: Disk, files: seq<string>): (r: seq<Table>)
    requires Valid(fs)
    requires forall k :: 0 <= k < |files| ==> files[k] in fs.files
    ensures |r| == |files|
    ensures forall k :: 0 <= k < |files| ==> r[k] == fs.files[files[k]]
    ensures AllWellFormed(r)
  {
    seq(|files|, k requires 0 <= k < |files| => fs.files[files[k]])
  }

  /** The last segment of a child's path is the entry's own name, whatever the directory looks like. */
  lemma ChildPathTag(dir: string, name: string)
    requires Plain(name)
    ensures LastSegment(ChildPath(dir, name)) == name
  {
    if |dir| > 0 && dir[|dir| - 1] != '/' {
      LastSegmentOfChild(dir, name);
    } else if |dir| == 0 {
      assert dir + name == name;
      PlainSegments(name);
    } else {
      var d := dir[..|dir| - 1];
      assert dir == d + "/";
      assert dir + name == d + "/" + name;
      LastSegmentOfChild(d, name);
    }
  }

  /** A path is listed exactly when some directory entry has it as its path, and the listing keeps the entries' order. */
  lemma {:induction false} DirPathsMembers(dir: string, entries: seq<DirEntry>, p: string)
    ensures p in DirPaths(dir, entries) <==> exists k :: 0 <= k < |entries| && entries[k].isDir && p == ChildPath(dir, entries[k].name)
    decreases |entries|
  {
    if |entries| > 0 {
      DirPathsMembers(dir, entries[1..], p);
      if exists k :: 0 <= k < |entries| && entries[k].isDir && p == ChildPath(dir, entries[k].name) {
        var k :| 0 <= k < |entries| && entries[k].isDir && p == ChildPath(dir, entries[k].name);
        if k > 0 {
          assert entries[1..][k - 1] == entries[k];
        }
      }
      if exists k :: 0 <= k < |entries[1..]| && entries[1..][k].isDir && p == ChildPath(dir, entries[1..][k].name) {
        var k :| 0 <= k < |entries[1..]| && entries[1..][k].isDir && p == ChildPath(dir, entries[1..][k].name);
        assert entries[k + 1] == entries[1..][k];
      }
    }
  }

  /** Every listed path ends in the name of a directory entry. */
  lemma {:induction false} DirPathsTags(dir: string, entries: seq<DirEntry>)
    requires forall k :: 0 <= k < |entries| ==> Plain(entries[k].name)
    ensures forall q :: q in DirPaths(dir, entries) ==> exists k :: 0 <= k < |entries| && entries[k].isDir && LastSegment(q) == entries[k].name
  {
    forall q | q in DirPaths(dir, entries)
      ensures exists k :: 0 <= k < |entries| && entries[k].isDir && LastSegment(q) == entries[k].name
    {
      DirPathsMembers(dir, entries, q);
      var k :| 0 <= k < |entries| && entries[k].isDir && q == ChildPath(dir, entries[k].name);
      ChildPathTag(dir, entries[k].name);
    }
  }
}

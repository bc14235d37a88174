/** `clear_directory` in Parser/dev/cloud/audio.py (lines 101-113): every
    entry of an existing directory is removed, sub-directories with their
    whole content and files one by one, while the directory itself stays. A
    missing path is reported and left alone; a path that exists but names a
    plain file passes the existence test and then makes `os.listdir` raise
    `NotADirectoryError`.

    The file system is a map from directory paths to their entries in
    `os.listdir` order, plus the set of paths of plain files; what the report
    prints is not modelled. */
module Cleanup {
  import opened Results
  import opened Text

  datatype Entry = File(name: string) | Folder(name: string, entries: seq<Entry>)

  /** One removal: `shutil.rmtree` or `os.remove` of a path. */
  datatype Removal = RemoveTree(path: string) | RemoveFile(path: string)

  /** How a call ends: the early return of line 105, the error of line 107,
      or the removals of lines 107-113. */
  datatype Outcome = Missing | Failed(error: Error) | Removed(ops: seq<Removal>)

  /** The removal for one entry of `directory` (lines 108-113). */
  function RemovalOf(directory: string, e: Entry): Removal {
    var itemPath := PathJoin(directory, e.name);
    if e.Folder? then RemoveTree(itemPath) else RemoveFile(itemPath)
  }

  /** The removals made for `entries`, in listing order. */
  function Removals(directory: string, entries: seq<Entry>): (ops: seq<Removal>)
    ensures |ops| == |entries|
  {
    if entries == [] then []
    else Removals(directory, entries[..|entries| - 1]) + [RemovalOf(directory, entries[|entries| - 1])]
  }

  /** The outcome of a call on `directory`. */
  function OutcomeOf(dirs: map<string, seq<Entry>>, files: set<string>, directory: string): (r: Outcome)
    ensures r.Missing? <==> directory !in dirs && directory !in files
    ensures r.Failed? <==> directory !in dirs && directory in files
    ensures r.Failed? ==> r.error == NotADirectoryError
    ensures r.Removed? <==> directory in dirs
  {
    if directory in dirs then Removed(Removals(directory, dirs[directory]))
    else if directory in files then Failed(NotADirectoryError)
    else Missing
  }

  /** The directories after the call. */
  function Cleared(dirs: map<string, seq<Entry>>, directory: string): (after: map<string, seq<Entry>>)
    ensures after.Keys == dirs.Keys
    ensures forall p | p in dirs && p != directory :: after[p] == dirs[p]
    ensures directory in dirs ==> after[directory] == []
  {
    if directory in dirs then dirs[directory := []] else dirs
  }

  /** The paths of the plain files among `entries`, which `os.remove` deletes. */
  function FilePaths(directory: string, entries: seq<Entry>): set<string> {
    if entries == [] then {}
    else
      var e := entries[|entries| - 1];
      FilePaths(directory, entries[..|entries| - 1]) + (if e.File? then {PathJoin(directory, e.name)} else {})
  }

  /** The plain-file paths after the call. */
  function ClearedFiles(dirs: map<string, seq<Entry>>, files: set<string>, directory: string): (after: set<string>)
    ensures after <= files
    ensures directory in dirs ==> forall e | e in dirs[directory] && e.File? :: PathJoin(directory, e.name) !in after
  {
    FilePathsHold(directory, if directory in dirs then dirs[directory] else []);
    if directory in dirs then files - FilePaths(directory, dirs[directory]) else files
  }

  class FileSystem {
    var dirs: map<string, seq<Entry>>
    var files: set<string>

    constructor (dirs: map<string, seq<Entry>>, files: set<string>)
      ensures this.dirs == dirs && this.files == files
    {
      this.dirs := dirs;
      this.files := files;
    }

    /** Lines 103-113. */
    method ClearDirectory(directory: string) returns (outcome: Outcome)
      modifies this
      ensures outcome == OutcomeOf(old(dirs), old(files), directory)
      ensures dirs == Cleared(old(dirs), directory)
      ensures files == ClearedFiles(old(dirs), old(files), directory)
    {
      if directory !in dirs && directory !in files {
        return Missing;
      }
      if directory !in dirs {
        return Failed(NotADirectoryError);
      }
      var items := dirs[directory];
      var ops := [];
      for i := 0 to |items|
        invariant dirs == old(dirs)[directory := items[i..]]
        invariant files == old(files) - FilePaths(directory, items[..i])
        invariant ops == Removals(directory, items[..i])
      {
        var item := items[i];
        var itemPath := PathJoin(directory, item.name);
        RemovalsStep(directory, items, i);
        var removal := if item.Folder? then RemoveTree(itemPath) else RemoveFile(itemPath);
        assert removal == RemovalOf(directory, item);
        if item.File? {
          files := files - {itemPath};
        }
        ops := ops + [removal];
        UpdateTwice(old(dirs), directory, items[i..], items[i + 1..]);
        dirs := dirs[directory := items[i + 1..]];
      }
      assert items[..|items|] == items;
      outcome := Removed(ops);
    }
  }

  lemma UpdateTwice(dirs: map<string, seq<Entry>>, directory: string, a: seq<Entry>, b: seq<Entry>)
    ensures dirs[directory := a][directory := b] == dirs[directory := b]
  {
  }

  lemma {:induction false} FilePathsHold(directory: string, entries: seq<Entry>)
    ensures forall e | e in entries && e.File? :: PathJoin(directory, e.name) in FilePaths(directory, entries)
    decreases |entries|
  {
    if entries != [] {
      var n := |entries| - 1;
      FilePathsHold(directory, entries[..n]);
      assert forall e | e in entries :: e in entries[..n] || e == entries[n];
    }
  }

  lemma RemovalsStep(directory: string, items: seq<Entry>, i: nat)
    requires i < |items|
    ensures Removals(directory, items[..i + 1]) == Removals(directory, items[..i]) + [RemovalOf(directory, items[i])]
    ensures FilePaths(directory, items[..i + 1]) ==
      FilePaths(directory, items[..i]) + (if items[i].File? then {PathJoin(directory, items[i].name)} else {})
  {
    assert items[..i + 1][..i] == items[..i];
  }

  /** The k-th removal is of the k-th listed entry, by the tool its kind calls for. */
  lemma RemovalsAt(directory: string, entries: seq<Entry>, k: nat)
    requires k < |entries|
    ensures var op := Removals(directory, entries)[k];
      op.path == PathJoin(directory, entries[k].name) && (op.RemoveTree? <==> entries[k].Folder?)
  {
    RemovalOfEntry(directory, entries, k);
  }

  lemma {:induction false} RemovalOfEntry(directory: string, entries: seq<Entry>, k: nat)
    requires k < |entries|
    ensures Removals(directory, entries)[k] == RemovalOf(directory, entries[k])
    decreases |entries|
  {
    var n := |entries| - 1;
    var front := entries[..n];
    var earlier := Removals(directory, front);
    assert Removals(directory, entries) == earlier + [RemovalOf(directory, entries[n])];
    if k < n {
      RemovalOfEntry(directory, front, k);
      assert front[k] == entries[k];
      assert Removals(directory, entries)[k] == earlier[k];
    } else {
      assert |earlier| == k;
    }
  }

  /** Clearing twice is clearing once, and the second call removes nothing. */
  lemma ClearTwice(dirs: map<string, seq<Entry>>, files: set<string>, directory: string)
    ensures Cleared(Cleared(dirs, directory), directory) == Cleared(dirs, directory)
    ensures var files1 := ClearedFiles(dirs, files, directory);
      ClearedFiles(Cleared(dirs, directory), files1, directory) == files1
    ensures OutcomeOf(Cleared(dirs, directory), files, directory) ==
      if directory in dirs then Removed([]) else OutcomeOf(dirs, files, directory)
  {
  }

  /** A path naming a plain file fails with `NotADirectoryError` and changes
      nothing; a path naming nothing is only reported. */
  lemma NotADirectory(dirs: map<string, seq<Entry>>, files: set<string>, directory: string)
    requires directory !in dirs
    ensures OutcomeOf(dirs, files, directory) == if directory in files then Failed(NotADirectoryError) else Missing
    ensures Cleared(dirs, directory) == dirs && ClearedFiles(dirs, files, directory) == files
  {
  }
}

/** Checkpoint file bookkeeping: `most_recent_file`, the max-fold over the files
    `os.walk` visits, and the `"-" + stem` name that analysis saves encodings
    under. The directory walk itself is a parameter: the paths and
    modification times in walk order. */
module Checkpoint {
  import opened Strings

  datatype FileEntry = FileEntry(path: string, mtime: real)

  /** A file the fold may pick: modified after the epoch and ending in `ext`. */
  predicate Candidate(e: FileEntry, ext: string) {
    e.mtime > 0.0 && EndsWith(e.path, ext)
  }

  /** `most_recent_file(folder, ext)` over the walk `files`: "" when no file
      qualifies; otherwise a qualifying file with the largest modification
      time, the first in walk order among equals (the update is a strict >). */
  method MostRecentFile(files: seq<FileEntry>, ext: string) returns (maxFile: string)
    ensures (forall i :: 0 <= i < |files| ==> !Candidate(files[i], ext)) ==> maxFile == ""
    ensures (exists i :: 0 <= i < |files| && Candidate(files[i], ext)) ==>
      exists k :: 0 <= k < |files| && maxFile == files[k].path && Candidate(files[k], ext)
        && (forall i :: 0 <= i < |files| && Candidate(files[i], ext) ==> files[i].mtime <= files[k].mtime)
        && (forall i :: 0 <= i < k && Candidate(files[i], ext) ==> files[i].mtime < files[k].mtime)
  {
    var maxTime := 0.0;
    maxFile := "";
    ghost var found := false;
    ghost var k := 0;
    for n := 0 to |files|
      invariant !found ==> maxFile == "" && maxTime == 0.0
      invariant !found <==> forall i :: 0 <= i < n ==> !Candidate(files[i], ext)
      invariant found ==> 0 <= k < n && maxFile == files[k].path && maxTime == files[k].mtime && Candidate(files[k], ext)
      invariant found ==> forall i :: 0 <= i < n && Candidate(files[i], ext) ==> files[i].mtime <= maxTime
      invariant found ==> forall i :: 0 <= i < k && Candidate(files[i], ext) ==> files[i].mtime < maxTime
    {
      var time := files[n].mtime;
      if time > maxTime && EndsWith(files[n].path, ext) {
        maxTime := time;
        maxFile := files[n].path;
        found, k := true, n;
      }
    }
  }

  /** The file name without directories: `path.rpartition("/")[2]`. */
  function BaseName(path: string): (base: string)
    ensures '/' !in base
    ensures '/' in path ==> exists dir :: path == dir + "/" + base
    ensures '/' !in path ==> base == path
  {
    var parts := RPartition(path, '/');
    assert '/' in path ==> path == parts.0 + "/" + parts.2;
    parts.2
  }

  /** `"-" + load_file.rpartition("/")[2].rpartition(".")[0]`: a dash and the
      file name without its last extension; only the dash when the file name
      has no '.'. */
  function SaveStem(loadFile: string): (stem: string)
    ensures |stem| >= 1 && stem[0] == '-'
    ensures '/' !in stem
    ensures '.' in BaseName(loadFile) ==>
      exists ext :: '.' !in ext && BaseName(loadFile) == stem[1..] + "." + ext
    ensures '.' !in BaseName(loadFile) ==> stem == "-"
  {
    var base := BaseName(loadFile);
    var parts := RPartition(base, '.');
    assert '.' in base ==> base == parts.0 + "." + parts.2;
    assert forall c :: c in parts.0 ==> c in base;
    "-" + parts.0
  }
}

/** File records exchanged between the inventory collectors, the
    reconciler and the executor, and the minute-granularity equality test. */
module Records {
  import opened Wrappers

  /** One plain file of an inventory. `location` is the full local path for a
      local record and the full device path for a device record: the source
      a copy reads from. Modification times are whole seconds. */
  datatype FileInfo = FileInfo(relPath: string, size: nat, mtime: int, location: string)

  /** One entry of a device directory listing (`ls -la`), as parsed: `mtime`
      is `None` when the date columns did not parse. */
  datatype DirEntry = DirEntry(name: string, isDir: bool, size: nat, mtimeText: string, mtime: Option<int>)

  /** Seconds per minute: the resolution of the equality test. */
  const MinuteSeconds: int := 60

  /** Two records describe the same content when their sizes agree and their
      modification times fall in the same whole minute (floor division, as
      Python's `//`; Dafny's `/` agrees with it for a positive divisor).
      Deliberately lossy: differences under a minute inside one minute are
      ignored, while one second across a minute boundary is not. */
  predicate IsSame(l: FileInfo, d: FileInfo) {
    l.size == d.size && l.mtime / MinuteSeconds == d.mtime / MinuteSeconds
  }

  /** What `IsSame` promises and what it does not: it is symmetric, implies
      equal sizes and times less than a minute apart, and holds for equal
      size and time; a same-minute pair is the same whichever side is newer,
      and a one-second difference across a minute boundary is a difference. */
  lemma IsSameMeaning(l: FileInfo, d: FileInfo)
    ensures IsSame(l, d) <==> IsSame(d, l)
    ensures IsSame(l, d) ==> l.size == d.size && -MinuteSeconds < l.mtime - d.mtime < MinuteSeconds
    ensures l.size == d.size && l.mtime == d.mtime ==> IsSame(l, d)
    ensures l.size == d.size && l.mtime % 60 == 0 && d.mtime == l.mtime + 59 ==> IsSame(l, d)
    ensures l.mtime % 60 == 59 && d.mtime == l.mtime + 1 ==> !IsSame(l, d)
  {
  }

  /** An inventory: records keyed by relative path. */
  type Inventory = map<string, FileInfo>

  /** No later record of `files` shares the path of `files[i]`. */
  predicate LastWithPath(files: seq<FileInfo>, i: int)
    requires 0 <= i < |files|
  {
    forall j :: i < j < |files| ==> files[j].relPath != files[i].relPath
  }

  /** `{f['rel_path']: f for f in files}`: every path of the list is a key,
      every key maps to a record of the list carrying that path (when a path
      repeats, the last record wins: `IndexByPathLastWins`). */
  function IndexByPath(files: seq<FileInfo>): (inv: Inventory)
    ensures forall i :: 0 <= i < |files| ==> files[i].relPath in inv
    ensures forall p :: p in inv ==> inv[p].relPath == p && inv[p] in files
    decreases |files|
  {
    if |files| == 0 then map[]
    else
      var init := files[..|files| - 1];
      var last := files[|files| - 1];
      var prev := IndexByPath(init);
      var inv := prev[last.relPath := last];
      assert forall i :: 0 <= i < |init| ==> init[i] == files[i];
      assert forall p :: p in prev ==> prev[p] in files by {
        forall p | p in prev ensures prev[p] in files {
          var k :| 0 <= k < |init| && init[k] == prev[p];
          assert files[k] == prev[p];
        }
      }
      inv
  }

  /** When a path repeats in the list, the dictionary keeps its last record. */
  lemma {:induction false} IndexByPathLastWins(files: seq<FileInfo>, i: int)
    requires 0 <= i < |files| && LastWithPath(files, i)
    ensures IndexByPath(files)[files[i].relPath] == files[i]
    decreases |files|
  {
    var init := files[..|files| - 1];
    if i < |files| - 1 {
      assert init[i] == files[i];
      assert LastWithPath(init, i) by {
        forall j | i < j < |init| ensures init[j].relPath != init[i].relPath {
          assert init[j] == files[j];
        }
      }
      IndexByPathLastWins(init, i);
    }
  }

  /** No path appears twice. */
  predicate Distinct(ps: seq<string>) {
    forall i, j :: 0 <= i < j < |ps| ==> ps[i] != ps[j]
  }

  /** The iteration order of the dictionary `IndexByPath(files)`: each path
      once, in order of first appearance in `files`. */
  function KeyOrder(files: seq<FileInfo>): (ps: seq<string>)
    ensures Distinct(ps)
    ensures forall p :: p in ps <==> p in IndexByPath(files)
    decreases |files|
  {
    if |files| == 0 then []
    else
      var init := files[..|files| - 1];
      var last := files[|files| - 1];
      var ps := KeyOrder(init);
      assert forall i :: 0 <= i < |init| ==> init[i] == files[i];
      if last.relPath in ps then ps else ps + [last.relPath]
  }
}

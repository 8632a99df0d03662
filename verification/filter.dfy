/** The filter stage both inventory collectors apply, in this order: age
    threshold, extension includeExts/excludeExts lists, then the plugin's
    `on_file_filter` veto, which is consulted only for files that passed
    the first two. */
module Filter {
  import opened Wrappers
  import opened Records
  import Text
  import Plugins

  const DaySeconds: int := 24 * 3600

  /** The age threshold: `now - days * 86400` for a positive number of days,
      0 (no threshold) otherwise. */
  function Threshold(syncDays: int, now: int): (t: int)
    ensures syncDays <= 0 ==> t == 0
    ensures syncDays > 0 ==> t + syncDays * DaySeconds == now
    ensures syncDays <= 0 || now <= syncDays * DaySeconds ==> forall m :: !TooOld(m, t)
    ensures syncDays > 0 && now > syncDays * DaySeconds ==>
      forall m :: TooOld(m, t) <==> now - m > syncDays * DaySeconds
  {
    if syncDays > 0 then now - syncDays * DaySeconds else 0
  }

  /** A file is too old only when a threshold is in force and it was last
      modified before it. */
  predicate TooOld(mtime: int, threshold: int) {
    threshold > 0 && mtime < threshold
  }

  /** `os.path.splitext(name)[1].lower()`. */
  function Extension(name: string): string {
    Text.Lower(Text.SplitExt(name))
  }

  /** A non-empty include list admits only its extensions; then a non-empty
      exclude list rejects its extensions. Entries are compared verbatim
      with the lower-cased extension. */
  predicate ExtensionRejected(ext: string, includeExts: seq<string>, excludeExts: seq<string>) {
    (|includeExts| > 0 && ext !in includeExts) || (|excludeExts| > 0 && ext in excludeExts)
  }

  /** A file the collector considers: its bare name (for the extension),
      the record shown to `on_file_filter`, and the inventory record it
      becomes when admitted. */
  datatype Item = Item(name: string, candidate: Plugins.Candidate, record: FileInfo)

  /** Passes the age and extension checks. */
  predicate PassesRules(it: Item, includeExts: seq<string>, excludeExts: seq<string>, threshold: int) {
    !TooOld(it.record.mtime, threshold) && !ExtensionRejected(Extension(it.name), includeExts, excludeExts)
  }

  /** Passes all three stages. */
  predicate Admitted(it: Item, includeExts: seq<string>, excludeExts: seq<string>, threshold: int, plugin: Option<Plugins.Plugin>) {
    PassesRules(it, includeExts, excludeExts, threshold) && (plugin.None? || plugin.value.onFileFilter(it.candidate))
  }

  /** What a collector returns: the admitted records, in order, and the
      candidates the plugin's filter hook was asked about. */
  datatype Collected = Collected(files: seq<FileInfo>, vetted: seq<Plugins.Candidate>)

  /** The kept records are exactly the records of the admitted items. */
  predicate Kept(items: seq<Item>, files: seq<FileInfo>, includeExts: seq<string>, excludeExts: seq<string>,
                 threshold: int, plugin: Option<Plugins.Plugin>) {
    && (forall f :: f in files ==>
          exists it :: it in items && Admitted(it, includeExts, excludeExts, threshold, plugin) && it.record == f)
    && (forall it :: it in items && Admitted(it, includeExts, excludeExts, threshold, plugin) ==> it.record in files)
  }

  /** The plugin hook was asked about exactly the items that passed the
      age and extension checks, and about nothing without a plugin. */
  predicate Vetted(items: seq<Item>, vetted: seq<Plugins.Candidate>, includeExts: seq<string>, excludeExts: seq<string>,
                   threshold: int, plugin: Option<Plugins.Plugin>) {
    && (forall c :: c in vetted ==>
          plugin.Some? && exists it :: it in items && PassesRules(it, includeExts, excludeExts, threshold) && it.candidate == c)
    && (plugin.Some? ==>
          forall it :: it in items && PassesRules(it, includeExts, excludeExts, threshold) ==> it.candidate in vetted)
  }

  /** One iteration of the filter loop on item `it`. */
  function Step(prev: Collected, it: Item, includeExts: seq<string>, excludeExts: seq<string>, threshold: int,
                plugin: Option<Plugins.Plugin>): Collected {
    if !PassesRules(it, includeExts, excludeExts, threshold) then prev
    else if plugin.None? then Collected(prev.files + [it.record], prev.vetted)
    else if plugin.value.onFileFilter(it.candidate) then
      Collected(prev.files + [it.record], prev.vetted + [it.candidate])
    else Collected(prev.files, prev.vetted + [it.candidate])
  }

  /** The filter loop: a record is kept exactly when its item passes all
      three stages, and the plugin hook is asked about exactly the items
      that passed the age and extension checks (never about one they
      rejected). */
  function Screen(items: seq<Item>, includeExts: seq<string>, excludeExts: seq<string>, threshold: int,
                  plugin: Option<Plugins.Plugin>): (r: Collected)
    ensures |r.files| <= |items|
    ensures Kept(items, r.files, includeExts, excludeExts, threshold, plugin)
    ensures Vetted(items, r.vetted, includeExts, excludeExts, threshold, plugin)
    decreases |items|
  {
    if |items| == 0 then Collected([], [])
    else
      var init := items[..|items| - 1];
      var it := items[|items| - 1];
      var prev := Screen(init, includeExts, excludeExts, threshold, plugin);
      assert items == init + [it];
      StepKeeps(init, it, prev, includeExts, excludeExts, threshold, plugin);
      Step(prev, it, includeExts, excludeExts, threshold, plugin)
  }

  /** One more iteration keeps both halves of the loop's contract. */
  lemma StepKeeps(init: seq<Item>, it: Item, prev: Collected, includeExts: seq<string>, excludeExts: seq<string>,
                  threshold: int, plugin: Option<Plugins.Plugin>)
    requires Kept(init, prev.files, includeExts, excludeExts, threshold, plugin)
    requires Vetted(init, prev.vetted, includeExts, excludeExts, threshold, plugin)
    ensures Kept(init + [it], Step(prev, it, includeExts, excludeExts, threshold, plugin).files,
                 includeExts, excludeExts, threshold, plugin)
    ensures Vetted(init + [it], Step(prev, it, includeExts, excludeExts, threshold, plugin).vetted,
                   includeExts, excludeExts, threshold, plugin)
  {
    var items := init + [it];
    assert forall x :: x in items <==> x in init || x == it;
    KeptStep(init, it, prev, includeExts, excludeExts, threshold, plugin);
    VettedStep(init, it, prev, includeExts, excludeExts, threshold, plugin);
  }

  lemma KeptStep(init: seq<Item>, it: Item, prev: Collected, includeExts: seq<string>, excludeExts: seq<string>,
                 threshold: int, plugin: Option<Plugins.Plugin>)
    requires Kept(init, prev.files, includeExts, excludeExts, threshold, plugin)
    requires forall x :: x in init + [it] <==> x in init || x == it
    ensures Kept(init + [it], Step(prev, it, includeExts, excludeExts, threshold, plugin).files,
                 includeExts, excludeExts, threshold, plugin)
  {
    var items := init + [it];
    var files := Step(prev, it, includeExts, excludeExts, threshold, plugin).files;
    if Admitted(it, includeExts, excludeExts, threshold, plugin) {
      assert files == prev.files + [it.record];
    } else {
      assert files == prev.files;
    }
    forall f | f in files
      ensures exists x :: x in items && Admitted(x, includeExts, excludeExts, threshold, plugin) && x.record == f
    {
      if f !in prev.files {
        assert it in items && Admitted(it, includeExts, excludeExts, threshold, plugin) && it.record == f;
      }
    }
  }

  lemma VettedStep(init: seq<Item>, it: Item, prev: Collected, includeExts: seq<string>, excludeExts: seq<string>,
                   threshold: int, plugin: Option<Plugins.Plugin>)
    requires Vetted(init, prev.vetted, includeExts, excludeExts, threshold, plugin)
    requires forall x :: x in init + [it] <==> x in init || x == it
    ensures Vetted(init + [it], Step(prev, it, includeExts, excludeExts, threshold, plugin).vetted,
                   includeExts, excludeExts, threshold, plugin)
  {
    var items := init + [it];
    var vetted := Step(prev, it, includeExts, excludeExts, threshold, plugin).vetted;
    if plugin.Some? && PassesRules(it, includeExts, excludeExts, threshold) {
      assert vetted == prev.vetted + [it.candidate];
    } else {
      assert vetted == prev.vetted;
    }
    forall c | c in vetted
      ensures plugin.Some? && exists x :: x in items && PassesRules(x, includeExts, excludeExts, threshold) && x.candidate == c
    {
      if c !in prev.vetted {
        assert it in items && PassesRules(it, includeExts, excludeExts, threshold) && it.candidate == c;
      }
    }
  }

  /** What `os.walk` and `os.stat` report for one local file. */
  datatype LocalEntry = LocalEntry(name: string, relPath: string, fullPath: string, size: nat, mtime: int)

  function LocalItem(e: LocalEntry): Item {
    Item(e.name,
         Plugins.Candidate(e.relPath, e.size, e.mtime, Some(e.fullPath)),
         FileInfo(e.relPath, e.size, e.mtime, e.fullPath))
  }

  /** `_collect_local_files` over the walked entries: every kept record is
      an admitted entry's own path, size, time and full path, and every
      admitted entry is kept. */
  function CollectLocal(entries: seq<LocalEntry>, includeExts: seq<string>, excludeExts: seq<string>, threshold: int,
                        plugin: Option<Plugins.Plugin>): (r: Collected)
    ensures forall f :: f in r.files ==>
      exists e :: e in entries && f == LocalItem(e).record && Admitted(LocalItem(e), includeExts, excludeExts, threshold, plugin)
    ensures forall e :: e in entries && Admitted(LocalItem(e), includeExts, excludeExts, threshold, plugin) ==>
      LocalItem(e).record in r.files
  {
    var items := seq(|entries|, i requires 0 <= i < |entries| => LocalItem(entries[i]));
    assert forall e :: e in entries ==> LocalItem(e) in items by {
      forall e | e in entries ensures LocalItem(e) in items {
        var i :| 0 <= i < |entries| && entries[i] == e;
        assert items[i] == LocalItem(e);
      }
    }
    Screen(items, includeExts, excludeExts, threshold, plugin)
  }

  /** The device item for a listing entry: the relative path is the bare
      entry name (the listing is one level deep) and the copy source is
      `device_path + "/" + name`. */
  function DeviceItem(e: DirEntry, devicePath: string): Item
    requires e.mtime.Some?
  {
    Item(e.name,
         Plugins.Candidate(e.name, e.size, e.mtime.value, None),
         FileInfo(e.name, e.size, e.mtime.value, devicePath + "/" + e.name))
  }

  /** Entries that are plain files with a known modification time. */
  predicate Listable(e: DirEntry) {
    !e.isDir && e.mtime.Some?
  }

  /** Directories and entries of unknown time are dropped before any other
      check; every other entry becomes an item, in order. */
  function DeviceItems(entries: seq<DirEntry>, devicePath: string): (items: seq<Item>)
    ensures forall it :: it in items ==> exists e :: e in entries && Listable(e) && it == DeviceItem(e, devicePath)
    ensures forall e :: e in entries && Listable(e) ==> DeviceItem(e, devicePath) in items
    decreases |entries|
  {
    if |entries| == 0 then []
    else
      var init := entries[..|entries| - 1];
      var e := entries[|entries| - 1];
      var prev := DeviceItems(init, devicePath);
      assert forall x :: x in entries <==> x in init || x == e;
      if Listable(e) then prev + [DeviceItem(e, devicePath)] else prev
  }

  /** `_collect_device_files` over a directory listing: every kept record
      comes from a listed plain file with a known time, under its bare name,
      and passed all three stages; every such file is kept. */
  function CollectDevice(entries: seq<DirEntry>, devicePath: string, includeExts: seq<string>, excludeExts: seq<string>,
                         threshold: int, plugin: Option<Plugins.Plugin>): (r: Collected)
    ensures forall f :: f in r.files ==>
      exists e :: (&& e in entries && Listable(e)
                   && f == FileInfo(e.name, e.size, e.mtime.value, devicePath + "/" + e.name)
                   && Admitted(DeviceItem(e, devicePath), includeExts, excludeExts, threshold, plugin))
    ensures forall e :: e in entries && Listable(e) && Admitted(DeviceItem(e, devicePath), includeExts, excludeExts, threshold, plugin) ==>
      DeviceItem(e, devicePath).record in r.files
  {
    Screen(DeviceItems(entries, devicePath), includeExts, excludeExts, threshold, plugin)
  }
}

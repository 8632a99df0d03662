/** `SyncEngine.sync`: one run of a pipeline, from path resolution through
    collection and comparison to execution. A raised error ends the run
    with `Err` carrying the error's message. */
module Engine {
  import opened Wrappers
  import opened Records
  import opened Pipelines
  import Plugins
  import Filter
  import opened Reconcile
  import opened Executor

  /** What the engine reads from the outside world during one run: whether
      a local directory exists, the walked local files, the device listing
      of a directory, the clock (whole seconds), and the device transport. */
  datatype World = World(
    isLocalDir: string -> bool,
    walk: string -> seq<Filter.LocalEntry>,
    listing: string -> seq<DirEntry>,
    now: int,
    transport: Transport)

  /** What a successful run did: the resolved paths, whether the device
      root had to be created, the planned operations, the remote
      directories created for uploads, the started items and the
      statistics returned. */
  datatype Outcome = Outcome(
    localPath: string,
    devicePath: string,
    createdRoot: bool,
    ops: seq<Op>,
    made: seq<string>,
    log: seq<Started>,
    stats: Stats)

  /** The plugin used: looked up only when the pipeline names one (an empty
      name counts as none); an unknown name gives no plugin. */
  function ActivePlugin(pl: Pipeline, load: (string, PluginConfig) -> Option<Plugins.Plugin>): (p: Option<Plugins.Plugin>)
    ensures pl.plugin.None? || pl.plugin.value == "" ==> p.None?
    ensures pl.plugin.Some? && pl.plugin.value != "" ==> p == load(pl.plugin.value, pl.pluginConfig)
  {
    if pl.plugin.Some? && pl.plugin.value != "" then load(pl.plugin.value, pl.pluginConfig) else None
  }

  /** The local and device paths: the plugin's `on_path_resolve` when a
      plugin is loaded, the pipeline's own otherwise. */
  function ResolvedPaths(pl: Pipeline, plugin: Option<Plugins.Plugin>): (r: Result<(string, string)>)
    ensures plugin.None? ==> r == Ok((pl.local, pl.device))
    ensures plugin.Some? ==> r == plugin.value.onPathResolve(pl)
  {
    if plugin.Some? then plugin.value.onPathResolve(pl) else Ok((pl.local, pl.device))
  }

  /** The records the local collector keeps. */
  function LocalFiles(pl: Pipeline, plugin: Option<Plugins.Plugin>, w: World, localPath: string): seq<FileInfo> {
    Filter.CollectLocal(w.walk(localPath), pl.includeExtensions, pl.excludeExtensions,
                        Filter.Threshold(pl.syncDays, w.now), plugin).files
  }

  /** The records the device collector keeps. */
  function DeviceFiles(pl: Pipeline, plugin: Option<Plugins.Plugin>, w: World, devicePath: string): seq<FileInfo> {
    Filter.CollectDevice(w.listing(devicePath), devicePath, pl.includeExtensions, pl.excludeExtensions,
                         Filter.Threshold(pl.syncDays, w.now), plugin).files
  }

  /** The run fails before any file is touched exactly when path
      resolution raises, the local path is not a directory, or the device
      path is missing and cannot be created. */
  predicate Fails(pl: Pipeline, plugin: Option<Plugins.Plugin>, w: World) {
    var paths := ResolvedPaths(pl, plugin);
    paths.Err?
    || !w.isLocalDir(paths.value.0)
    || (!w.transport.pathExists(paths.value.1) && !w.transport.mkdir(paths.value.1))
  }

  /** `sync(pipeline, progress_callback, conflict_callback)`. On success
      the operations are exactly the reference plan for the collected
      inventories, the remote directories and the started items are those
      the executor promises, and the statistics are the tally of the
      started items. */
  method Sync(pl: Pipeline, load: (string, PluginConfig) -> Option<Plugins.Plugin>, callback: Option<ConflictCallback>,
              w: World, stopAt: nat)
    returns (r: Result<Outcome>)
    ensures r.Err? <==> Fails(pl, ActivePlugin(pl, load), w)
    ensures r.Ok? ==>
      var plugin := ActivePlugin(pl, load);
      var o := r.value;
      && ResolvedPaths(pl, plugin) == Ok((o.localPath, o.devicePath))
      && o.createdRoot == !w.transport.pathExists(o.devicePath)
      && (forall op :: op in o.ops <==>
            op in Plan(IndexByPath(LocalFiles(pl, plugin, w, o.localPath)),
                       IndexByPath(DeviceFiles(pl, plugin, w, o.devicePath)),
                       DirectionOf(pl.direction), Resolvers(plugin, callback)))
      && (forall i, j :: 0 <= i < j < |o.ops| ==> PathOf(o.ops[i]) != PathOf(o.ops[j]))
      && (|o.ops| > 0 ==> forall d :: d in o.made <==>
            d in RemoteDirs(o.ops, o.devicePath) && d != o.devicePath && !w.transport.pathExists(d))
      && |o.log| == (if stopAt < |o.ops| then stopAt else |o.ops|)
      && (forall i :: 0 <= i < |o.log| ==> o.log[i] == Entry(o.ops, i, o.localPath, o.devicePath, w.transport))
      && o.stats == Tally(o.log)
  {
    var plugin := ActivePlugin(pl, load);
    var paths := ResolvedPaths(pl, plugin);
    if paths.Err? {
      return Err(paths.message);
    }
    var (localPath, devicePath) := paths.value;
    if !w.isLocalDir(localPath) {
      return Err("local path does not exist: " + localPath);
    }
    var createdRoot := false;
    var t := w.transport;
    if !w.transport.pathExists(devicePath) {
      if !w.transport.mkdir(devicePath) {
        return Err("cannot create device path: " + devicePath);
      }
      createdRoot := true;
      t := WithRoot(w.transport, devicePath);
    }
    var localFiles := LocalFiles(pl, plugin, w, localPath);
    var deviceFiles := DeviceFiles(pl, plugin, w, devicePath);
    var ops, _ := CompareFiles(localFiles, deviceFiles, pl.direction, Resolvers(plugin, callback));
    var made, log, stats := Execute(ops, localPath, devicePath, t, stopAt);
    forall i | 0 <= i < |log| ensures log[i] == Entry(ops, i, localPath, devicePath, w.transport) {
      SameTransfers(ops, i, localPath, devicePath, t, w.transport);
    }
    return Ok(Outcome(localPath, devicePath, createdRoot, ops, made, log, stats));
  }

  /** The device once `mkdir` has created the root: the root exists, and
      every other answer is unchanged. */
  function WithRoot(t: Transport, root: string): (r: Transport)
    ensures r.transfer == t.transfer && r.mkdir == t.mkdir
    ensures forall d :: r.pathExists(d) <==> d == root || t.pathExists(d)
  {
    t.(pathExists := (d: string) => d == root || t.pathExists(d))
  }

  /** An item's entry depends on the transport only through its transfers. */
  lemma SameTransfers(ops: seq<Op>, i: nat, localPath: string, devicePath: string, t: Transport, u: Transport)
    requires i < |ops| && t.transfer == u.transfer
    ensures Entry(ops, i, localPath, devicePath, t) == Entry(ops, i, localPath, devicePath, u)
  {
  }
}

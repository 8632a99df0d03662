/** The reconciler (`_compare_files`): from the two inventories, a
    direction and the conflict resolvers, the operations to perform. */
module Reconcile {
  import opened Wrappers
  import opened Records
  import opened Pipelines
  import Plugins

  datatype Direction = LocalToDevice | DeviceToLocal | Bidirectional

  /** The two one-way directions are matched by name; any other text,
      including a misspelling, selects bidirectional mode. */
  function DirectionOf(name: string): (d: Direction)
    ensures d == LocalToDevice <==> name == LocalToDeviceName
    ensures d == DeviceToLocal <==> name == DeviceToLocalName
    ensures d == Bidirectional <==> name != LocalToDeviceName && name != DeviceToLocalName
  {
    if name == LocalToDeviceName then LocalToDevice
    else if name == DeviceToLocalName then DeviceToLocal
    else Bidirectional
  }

  /** An operation: an upload of a local record, or a download of a device
      record from its device path. */
  datatype Op = Upload(file: FileInfo) | Download(file: FileInfo, source: string)

  function PathOf(op: Op): string {
    op.file.relPath
  }

  /** A caller-supplied conflict callback `(rel_path, local, device) -> decision`. */
  type ConflictCallback = (string, FileInfo, FileInfo) -> string

  /** The two conflict deciders the engine knows. */
  datatype Resolvers = Resolvers(plugin: Option<Plugins.Plugin>, callback: Option<ConflictCallback>)

  /** The decision for a conflict: the plugin's `on_conflict` when a plugin
      is loaded (every plugin has one), otherwise the callback, otherwise
      "skip". */
  function Choice(p: string, l: FileInfo, d: FileInfo, res: Resolvers): string {
    if res.plugin.Some? then res.plugin.value.onConflict(l, d)
    else if res.callback.Some? then res.callback.value(p, l, d)
    else Plugins.SkipDecision
  }

  /** Every key names its own record's path, as in a dictionary built by
      `IndexByPath`. */
  predicate WellKeyed(inv: Inventory) {
    forall p :: p in inv ==> inv[p].relPath == p
  }

  /** The one true conflict: bidirectional mode, both sides present and not
      the same, and the device copy strictly newer. */
  predicate IsConflict(p: string, local: Inventory, device: Inventory, dir: Direction) {
    && dir == Bidirectional
    && p in local && p in device
    && !IsSame(local[p], device[p])
    && local[p].mtime < device[p].mtime
  }

  /** When the local record at `p` is uploaded. One-way push: absent on the
      device, or different and strictly newer locally. Bidirectional:
      absent on the device, different and strictly newer locally, or a
      conflict decided "local". */
  predicate ShouldUpload(p: string, local: Inventory, device: Inventory, dir: Direction, res: Resolvers) {
    p in local &&
    match dir
    case LocalToDevice =>
      p !in device || (!IsSame(local[p], device[p]) && local[p].mtime > device[p].mtime)
    case DeviceToLocal => false
    case Bidirectional =>
      p !in device || (!IsSame(local[p], device[p]) && local[p].mtime > device[p].mtime)
      || (IsConflict(p, local, device, dir) && Choice(p, local[p], device[p], res) == Plugins.KeepLocal)
  }

  /** When the device record at `p` is downloaded. One-way pull: absent
      locally, or different and strictly newer on the device.
      Bidirectional: absent locally, or a conflict decided "device". */
  predicate ShouldDownload(p: string, local: Inventory, device: Inventory, dir: Direction, res: Resolvers) {
    p in device &&
    match dir
    case LocalToDevice => false
    case DeviceToLocal =>
      p !in local || (!IsSame(local[p], device[p]) && device[p].mtime > local[p].mtime)
    case Bidirectional =>
      p !in local
      || (IsConflict(p, local, device, dir) && Choice(p, local[p], device[p], res) == Plugins.KeepDevice)
  }

  /** The reference plan: the set of operations the rules above call for.
      Equal times with different sizes, same records, and conflicts decided
      anything but "local" or "device" call for nothing. */
  function Plan(local: Inventory, device: Inventory, dir: Direction, res: Resolvers): set<Op> {
    (set p | p in local && ShouldUpload(p, local, device, dir, res) :: Upload(local[p]))
    + (set p | p in device && ShouldDownload(p, local, device, dir, res) :: Download(device[p], device[p].location))
  }

  /** `op` is the operation the rules call for at path `p`. */
  predicate Emits(p: string, op: Op, local: Inventory, device: Inventory, dir: Direction, res: Resolvers) {
    || (ShouldUpload(p, local, device, dir, res) && op == Upload(local[p]))
    || (ShouldDownload(p, local, device, dir, res) && op == Download(device[p], device[p].location))
  }

  /** Membership in the plan is decided at the operation's own path. */
  lemma PlanMembers(local: Inventory, device: Inventory, dir: Direction, res: Resolvers, op: Op)
    requires WellKeyed(local) && WellKeyed(device)
    ensures op in Plan(local, device, dir, res) <==> Emits(PathOf(op), op, local, device, dir, res)
  {
    var p := PathOf(op);
    if Emits(p, op, local, device, dir, res) {
      if ShouldUpload(p, local, device, dir, res) && op == Upload(local[p]) {
        assert op in (set q | q in local && ShouldUpload(q, local, device, dir, res) :: Upload(local[q]));
      } else {
        assert op in (set q | q in device && ShouldDownload(q, local, device, dir, res) :: Download(device[q], device[q].location));
      }
    }
  }

  /** One iteration of the comparison loop at path `p`, branch for branch:
      the operation emitted, if any, and whether a conflict decider was
      consulted. */
  method CompareOne(p: string, local: Inventory, device: Inventory, dir: Direction, res: Resolvers)
    returns (emitted: Option<Op>, asked: bool)
    requires dir == LocalToDevice ==> p in local
    requires dir == DeviceToLocal ==> p in device
    requires p in local || p in device
    ensures emitted.Some? ==> Emits(p, emitted.value, local, device, dir, res)
    ensures ShouldUpload(p, local, device, dir, res) ==> emitted == Some(Upload(local[p]))
    ensures ShouldDownload(p, local, device, dir, res) ==> emitted == Some(Download(device[p], device[p].location))
    ensures asked <==> IsConflict(p, local, device, dir)
  {
    emitted, asked := None, false;
    match dir {
      case LocalToDevice =>
        var lf := local[p];
        if p !in device {
          emitted := Some(Upload(lf));
        } else if IsSame(lf, device[p]) {
        } else if lf.mtime > device[p].mtime {
          emitted := Some(Upload(lf));
        }
      case DeviceToLocal =>
        var df := device[p];
        if p !in local {
          emitted := Some(Download(df, df.location));
        } else if IsSame(local[p], df) {
        } else if df.mtime > local[p].mtime {
          emitted := Some(Download(df, df.location));
        }
      case Bidirectional =>
        if p in local && p in device {
          var lf, df := local[p], device[p];
          if IsSame(lf, df) {
          } else if lf.mtime > df.mtime {
            emitted := Some(Upload(lf));
          } else if lf.mtime < df.mtime {
            var decision := Choice(p, lf, df, res);
            asked := true;
            if decision == Plugins.KeepLocal {
              emitted := Some(Upload(lf));
            } else if decision == Plugins.KeepDevice {
              emitted := Some(Download(df, df.location));
            }
          }
        } else if p in local {
          emitted := Some(Upload(local[p]));
        } else {
          emitted := Some(Download(device[p], device[p].location));
        }
    }
  }

  /** Lists each element of a finite set once, in an unspecified order, as
      iterating a Python set does. */
  method Enumerate(s: set<string>) returns (xs: seq<string>)
    ensures Distinct(xs)
    ensures forall x :: x in xs <==> x in s
  {
    xs := [];
    var rest := s;
    while rest != {}
      invariant Distinct(xs)
      invariant forall x :: x in xs <==> x in s && x !in rest
      invariant rest <= s
      decreases rest
    {
      var x :| x in rest;
      xs := xs + [x];
      rest := rest - {x};
    }
  }

  /** The keys the comparison walks: the local dictionary's keys in
      insertion order (push), the device dictionary's (pull), or the union
      of both in any order (bidirectional). Each path once, and every path
      the rules may act on is among them. */
  method WalkOrder(localFiles: seq<FileInfo>, deviceFiles: seq<FileInfo>, dir: Direction) returns (keys: seq<string>)
    ensures Distinct(keys)
    ensures forall p :: p in keys ==> p in IndexByPath(localFiles) || p in IndexByPath(deviceFiles)
    ensures dir == LocalToDevice ==> forall p :: p in keys <==> p in IndexByPath(localFiles)
    ensures dir == DeviceToLocal ==> forall p :: p in keys <==> p in IndexByPath(deviceFiles)
    ensures dir == Bidirectional ==> forall p :: p in keys <==> p in IndexByPath(localFiles) || p in IndexByPath(deviceFiles)
  {
    if dir == LocalToDevice {
      keys := KeyOrder(localFiles);
    } else if dir == DeviceToLocal {
      keys := KeyOrder(deviceFiles);
    } else {
      keys := Enumerate(IndexByPath(localFiles).Keys + IndexByPath(deviceFiles).Keys);
    }
  }

  /** The comparison loop over `keys`. */
  method Walk(keys: seq<string>, local: Inventory, device: Inventory, dir: Direction, res: Resolvers)
    returns (ops: seq<Op>, consulted: seq<string>)
    requires WellKeyed(local) && WellKeyed(device)
    requires Distinct(keys)
    requires forall p :: p in keys ==> p in local || p in device
    requires dir == LocalToDevice ==> forall p :: p in keys ==> p in local
    requires dir == DeviceToLocal ==> forall p :: p in keys ==> p in device
    ensures forall i :: 0 <= i < |ops| ==> PathOf(ops[i]) in keys && Emits(PathOf(ops[i]), ops[i], local, device, dir, res)
    ensures forall i, j :: 0 <= i < j < |ops| ==> PathOf(ops[i]) != PathOf(ops[j])
    ensures forall p :: p in keys && ShouldUpload(p, local, device, dir, res) ==> Upload(local[p]) in ops
    ensures forall p :: p in keys && ShouldDownload(p, local, device, dir, res) ==>
      Download(device[p], device[p].location) in ops
    ensures Distinct(consulted)
    ensures forall p :: p in consulted <==> p in keys && IsConflict(p, local, device, dir)
  {
    ops, consulted := [], [];
    var k := 0;
    ghost var done: seq<string> := [];
    while k < |keys|
      invariant 0 <= k <= |keys| && done == keys[..k]
      invariant forall i :: 0 <= i < |ops| ==>
        PathOf(ops[i]) in done && Emits(PathOf(ops[i]), ops[i], local, device, dir, res)
      invariant forall i, j :: 0 <= i < j < |ops| ==> PathOf(ops[i]) != PathOf(ops[j])
      invariant forall p :: p in done && ShouldUpload(p, local, device, dir, res) ==> Upload(local[p]) in ops
      invariant forall p :: p in done && ShouldDownload(p, local, device, dir, res) ==>
        Download(device[p], device[p].location) in ops
      invariant Distinct(consulted)
      invariant forall p :: p in consulted <==> p in done && IsConflict(p, local, device, dir)
    {
      var p := keys[k];
      assert p !in done;
      var emitted, asked := CompareOne(p, local, device, dir, res);
      if asked {
        consulted := consulted + [p];
      }
      if emitted.Some? {
        assert PathOf(emitted.value) == p;
        ops := ops + [emitted.value];
      }
      assert keys[..k + 1] == done + [p];
      done := done + [p];
      k := k + 1;
    }
    assert done == keys;
  }

  /** `_compare_files`: builds both dictionaries, walks the local keys
      (push), the device keys (pull) or the union of both in any order
      (bidirectional), and emits the operations. The result holds exactly
      the reference plan's operations, at most one per path; the conflict
      deciders are consulted exactly once for each conflicting path and for
      no other. */
  method CompareFiles(localFiles: seq<FileInfo>, deviceFiles: seq<FileInfo>, direction: string, res: Resolvers)
    returns (ops: seq<Op>, consulted: seq<string>)
    ensures forall op :: op in ops <==>
      op in Plan(IndexByPath(localFiles), IndexByPath(deviceFiles), DirectionOf(direction), res)
    ensures forall i, j :: 0 <= i < j < |ops| ==> PathOf(ops[i]) != PathOf(ops[j])
    ensures Distinct(consulted)
    ensures forall p :: p in consulted <==>
      IsConflict(p, IndexByPath(localFiles), IndexByPath(deviceFiles), DirectionOf(direction))
  {
    var local := IndexByPath(localFiles);
    var device := IndexByPath(deviceFiles);
    var dir := DirectionOf(direction);
    var keys := WalkOrder(localFiles, deviceFiles, dir);
    ops, consulted := Walk(keys, local, device, dir, res);
    forall op ensures op in ops <==> op in Plan(local, device, dir, res) {
      PlanMembers(local, device, dir, res, op);
      if op in Plan(local, device, dir, res) {
        var p := PathOf(op);
        assert ShouldUpload(p, local, device, dir, res) || ShouldDownload(p, local, device, dir, res);
        assert p in keys;
      }
    }
  }

  /** The plan never holds two operations for one path. */
  lemma PlanOnePerPath(local: Inventory, device: Inventory, dir: Direction, res: Resolvers, a: Op, b: Op)
    requires WellKeyed(local) && WellKeyed(device)
    requires a in Plan(local, device, dir, res) && b in Plan(local, device, dir, res)
    requires PathOf(a) == PathOf(b)
    ensures a == b
  {
    PlanMembers(local, device, dir, res, a);
    PlanMembers(local, device, dir, res, b);
  }

  /** A one-way push only uploads and a one-way pull only downloads. */
  lemma OneWayPlans(local: Inventory, device: Inventory, dir: Direction, res: Resolvers, op: Op)
    requires WellKeyed(local) && WellKeyed(device)
    requires op in Plan(local, device, dir, res)
    ensures dir == LocalToDevice ==> op.Upload?
    ensures dir == DeviceToLocal ==> op.Download?
  {
    PlanMembers(local, device, dir, res, op);
  }

  /** Push and pull are mirror images: pushing `a` onto `b` uploads a record
      exactly when pulling from `a` into `b` (the roles of the two
      inventories swapped) downloads it. */
  lemma PushPullMirror(a: Inventory, b: Inventory, res: Resolvers, res': Resolvers, f: FileInfo)
    requires WellKeyed(a) && WellKeyed(b)
    ensures Upload(f) in Plan(a, b, LocalToDevice, res) <==> Download(f, f.location) in Plan(b, a, DeviceToLocal, res')
  {
    PlanMembers(a, b, LocalToDevice, res, Upload(f));
    PlanMembers(b, a, DeviceToLocal, res', Download(f, f.location));
    var p := f.relPath;
    if p in a && p in b {
      IsSameMeaning(a[p], b[p]);
    }
  }

  /** Two inventories with the same paths, each pair the same file, call for
      nothing in any direction. */
  lemma InSyncPlanEmpty(local: Inventory, device: Inventory, dir: Direction, res: Resolvers)
    requires WellKeyed(local) && WellKeyed(device)
    requires local.Keys == device.Keys
    requires forall p :: p in local ==> IsSame(local[p], device[p])
    ensures Plan(local, device, dir, res) == {}
  {
    forall op | op in Plan(local, device, dir, res) ensures false {
      PlanMembers(local, device, dir, res, op);
    }
  }

  /** With a plugin loaded that keeps the base conflict rule, the caller's
      callback is never heard: the plan is the plan without any decider,
      and no conflict leads to an operation. */
  lemma BasePluginMasksCallback(local: Inventory, device: Inventory, dir: Direction,
                                config: PluginConfig, callback: Option<ConflictCallback>)
    requires WellKeyed(local) && WellKeyed(device)
    ensures Plan(local, device, dir, Resolvers(Some(Plugins.BasePlugin(config)), callback))
         == Plan(local, device, dir, Resolvers(None, None))
    ensures forall p :: IsConflict(p, local, device, dir) ==>
      !ShouldUpload(p, local, device, dir, Resolvers(Some(Plugins.BasePlugin(config)), callback)) &&
      !ShouldDownload(p, local, device, dir, Resolvers(Some(Plugins.BasePlugin(config)), callback))
  {
    var withPlugin := Resolvers(Some(Plugins.BasePlugin(config)), callback);
    var bare := Resolvers(None, None);
    forall p | p in local || p in device
      ensures ShouldUpload(p, local, device, dir, withPlugin) == ShouldUpload(p, local, device, dir, bare)
      ensures ShouldDownload(p, local, device, dir, withPlugin) == ShouldDownload(p, local, device, dir, bare)
    {
      if p in local && p in device {
        assert Choice(p, local[p], device[p], withPlugin) == Plugins.SkipDecision;
        assert Choice(p, local[p], device[p], bare) == Plugins.SkipDecision;
      }
    }
  }

  /** A copy as it lands on the other side: same path, size and time. */
  function Landed(f: FileInfo, location: string): (g: FileInfo)
    ensures g.relPath == f.relPath && IsSame(f, g)
  {
    FileInfo(f.relPath, f.size, f.mtime, location)
  }

  /** The device inventory after a push plan is carried out, when every
      upload keeps the file's size and modification time. */
  function AfterPush(local: Inventory, device: Inventory, res: Resolvers, location: string -> string): Inventory {
    map p | p in local.Keys + device.Keys ::
      if ShouldUpload(p, local, device, LocalToDevice, res) then Landed(local[p], location(p)) else device[p]
  }

  /** Pushing reaches a fixed point: after the push plan is carried out, a
      second push calls for nothing. */
  lemma PushIdempotent(local: Inventory, device: Inventory, res: Resolvers, location: string -> string)
    requires WellKeyed(local) && WellKeyed(device)
    ensures WellKeyed(AfterPush(local, device, res, location))
    ensures Plan(local, AfterPush(local, device, res, location), LocalToDevice, res) == {}
  {
    var after := AfterPush(local, device, res, location);
    forall p | p in local ensures !ShouldUpload(p, local, after, LocalToDevice, res) {
      if ShouldUpload(p, local, device, LocalToDevice, res) {
        assert IsSame(local[p], after[p]);
      } else {
        assert after[p] == device[p];
      }
    }
    forall op | op in Plan(local, after, LocalToDevice, res) ensures false {
      PlanMembers(local, after, LocalToDevice, res, op);
    }
  }

  /** The local inventory after a pull plan is carried out, when every
      download keeps the file's size and modification time. */
  function AfterPull(local: Inventory, device: Inventory, res: Resolvers, location: string -> string): Inventory {
    map p | p in local.Keys + device.Keys ::
      if ShouldDownload(p, local, device, DeviceToLocal, res) then Landed(device[p], location(p)) else local[p]
  }

  /** Pulling reaches a fixed point: after the pull plan is carried out, a
      second pull calls for nothing. */
  lemma PullIdempotent(local: Inventory, device: Inventory, res: Resolvers, location: string -> string)
    requires WellKeyed(local) && WellKeyed(device)
    ensures WellKeyed(AfterPull(local, device, res, location))
    ensures Plan(AfterPull(local, device, res, location), device, DeviceToLocal, res) == {}
  {
    var after := AfterPull(local, device, res, location);
    forall p | p in device ensures !ShouldDownload(p, after, device, DeviceToLocal, res) {
      if ShouldDownload(p, local, device, DeviceToLocal, res) {
        assert IsSame(after[p], device[p]);
      } else {
        assert after[p] == local[p];
      }
    }
    forall op | op in Plan(after, device, DeviceToLocal, res) ensures false {
      PlanMembers(after, device, DeviceToLocal, res, op);
    }
  }

  /** The device inventory after a bidirectional plan is carried out: each
      upload lands on the device with its size and time kept. */
  function AfterBidiDevice(local: Inventory, device: Inventory, res: Resolvers, location: string -> string): Inventory {
    map p | p in local.Keys + device.Keys ::
      if ShouldUpload(p, local, device, Bidirectional, res) then Landed(local[p], location(p)) else device[p]
  }

  /** The local inventory after a bidirectional plan is carried out: each
      download lands locally with its size and time kept. */
  function AfterBidiLocal(local: Inventory, device: Inventory, res: Resolvers, location: string -> string): Inventory {
    map p | p in local.Keys + device.Keys ::
      if ShouldDownload(p, local, device, Bidirectional, res) then Landed(device[p], location(p)) else local[p]
  }

  /** Bidirectional sync reaches a fixed point: once uploads have landed on
      the device and downloads locally, a second run calls for nothing.
      A conflict left alone ("skip") stays a conflict, and the same
      resolvers decide it the same way again. */
  lemma BidirectionalIdempotent(local: Inventory, device: Inventory, res: Resolvers,
                                deviceLocation: string -> string, localLocation: string -> string)
    requires WellKeyed(local) && WellKeyed(device)
    ensures WellKeyed(AfterBidiLocal(local, device, res, localLocation))
    ensures WellKeyed(AfterBidiDevice(local, device, res, deviceLocation))
    ensures Plan(AfterBidiLocal(local, device, res, localLocation),
                 AfterBidiDevice(local, device, res, deviceLocation), Bidirectional, res) == {}
  {
    var local' := AfterBidiLocal(local, device, res, localLocation);
    var device' := AfterBidiDevice(local, device, res, deviceLocation);
    forall p | p in local' || p in device'
      ensures !ShouldUpload(p, local', device', Bidirectional, res)
      ensures !ShouldDownload(p, local', device', Bidirectional, res)
    {
      if ShouldUpload(p, local, device, Bidirectional, res) {
        assert !ShouldDownload(p, local, device, Bidirectional, res);
        assert local'[p] == local[p] && IsSame(local'[p], device'[p]);
      } else if ShouldDownload(p, local, device, Bidirectional, res) {
        assert device'[p] == device[p] && IsSame(local'[p], device'[p]);
      }
      // Otherwise both records at p are unchanged and decide as before.
    }
    forall op | op in Plan(local', device', Bidirectional, res) ensures false {
      PlanMembers(local', device', Bidirectional, res, op);
    }
  }
}

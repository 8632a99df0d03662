/** The executor half of `sync`: creating the missing remote directories
    for the uploads, then carrying the operations out one by one, with
    progress reports, a stop flag checked before each item, and the
    upload/download/skip/error counters. */
module Executor {
  import opened Records
  import opened Reconcile
  import Paths

  /** What the device and the local file system answer during one run:
      whether a path exists on the device, whether `mkdir -p` succeeds, and
      whether a requested transfer succeeds. A transfer fails on a non-zero
      exit status and on a raised error alike; a download also fails when
      creating its local parent directory raises. */
  datatype Transport = Transport(
    pathExists: string -> bool,
    mkdir: string -> bool,
    transfer: Call -> bool)

  /** The four counters of the returned statistics dictionary. */
  datatype Stats = Stats(upload: nat, download: nat, skip: nat, error: nat)

  function Total(s: Stats): nat {
    s.upload + s.download + s.skip + s.error
  }

  /** One progress report: a description, the item's index, the total. */
  datatype Progress = Progress(desc: string, index: nat, total: nat)

  /** A transfer as the executor requests it. */
  datatype Call = Push(source: string, target: string) | Pull(source: string, target: string)

  /** Where an upload lands: the device path, a forward slash, and the
      record's relative path. */
  function RemoteTarget(devicePath: string, rel: string): string {
    devicePath + "/" + rel
  }

  /** Where a download lands: the local path joined with the relative path. */
  function LocalTarget(localPath: string, rel: string): string {
    Paths.Join(localPath, rel)
  }

  /** The progress text: the operation's name, a space and the path. */
  function Describe(op: Op): (r: string)
    ensures op.Upload? ==> r == "upload " + PathOf(op)
    ensures op.Download? ==> r == "download " + PathOf(op)
  {
    (if op.Upload? then "upload " else "download ") + PathOf(op)
  }

  /** The transfer an operation requests. */
  function Attempt(op: Op, localPath: string, devicePath: string): (c: Call)
    ensures op.Upload? ==> c.Push? && c.source == op.file.location && c.target == RemoteTarget(devicePath, PathOf(op))
    ensures op.Download? ==> c.Pull? && c.source == op.source && c.target == LocalTarget(localPath, PathOf(op))
  {
    match op
    case Upload(f) => Push(f.location, RemoteTarget(devicePath, f.relPath))
    case Download(f, source) => Pull(source, LocalTarget(localPath, f.relPath))
  }

  /** What happened to one started item: the progress report sent before
      it, the transfer requested, and whether the transfer succeeded. */
  datatype Started = Started(report: Progress, call: Call, ok: bool)

  /** The `i`-th item of `ops` as the loop handles it. */
  function Entry(ops: seq<Op>, i: nat, localPath: string, devicePath: string, t: Transport): Started
    requires i < |ops|
  {
    var call := Attempt(ops[i], localPath, devicePath);
    Started(Progress(Describe(ops[i]), i, |ops|), call, t.transfer(call))
  }

  /** The first `n` items handled in order. */
  function Run(ops: seq<Op>, n: nat, localPath: string, devicePath: string, t: Transport): (log: seq<Started>)
    requires n <= |ops|
    ensures |log| == n
  {
    if n == 0 then [] else Run(ops, n - 1, localPath, devicePath, t) + [Entry(ops, n - 1, localPath, devicePath, t)]
  }

  /** Item `i` of a run is the `i`-th operation's entry: reported with its
      own index and the full total, its own transfer, in order. */
  lemma {:induction false} RunEntries(ops: seq<Op>, n: nat, localPath: string, devicePath: string, t: Transport)
    requires n <= |ops|
    ensures forall i :: 0 <= i < n ==> Run(ops, n, localPath, devicePath, t)[i] == Entry(ops, i, localPath, devicePath, t)
  {
    if n > 0 {
      RunEntries(ops, n - 1, localPath, devicePath, t);
      var prev := Run(ops, n - 1, localPath, devicePath, t);
      assert Run(ops, n, localPath, devicePath, t) == prev + [Entry(ops, n - 1, localPath, devicePath, t)];
    }
  }

  /** The counters for a run: every started item counts once, as an upload
      (a successful push), a download (a successful pull) or an error;
      nothing is ever counted as skipped; and there is no error exactly
      when every transfer succeeded. */
  function Tally(log: seq<Started>): (s: Stats)
    ensures s.upload == CountOf(log, Uploaded)
    ensures s.download == CountOf(log, Downloaded)
    ensures s.error == CountOf(log, Failed)
    ensures s.upload + s.download + s.error == |log| && s.skip == 0
    ensures s.error == 0 <==> forall i :: 0 <= i < |log| ==> log[i].ok
    ensures (forall i :: 0 <= i < |log| ==> log[i].call.Push?) ==> s.download == 0
    ensures (forall i :: 0 <= i < |log| ==> log[i].call.Pull?) ==> s.upload == 0
  {
    if |log| == 0 then Stats(0, 0, 0, 0)
    else
      var n := |log| - 1;
      var s := Tally(log[..n]);
      assert forall i :: 0 <= i < n ==> log[..n][i] == log[i];
      assert log == log[..n] + [log[n]];
      CountOfSnoc(log[..n], log[n], Uploaded);
      CountOfSnoc(log[..n], log[n], Downloaded);
      CountOfSnoc(log[..n], log[n], Failed);
      Count(s, log[n].call.Push?, log[n].ok)
  }

  /** A successful push, a successful pull, a failed transfer. */
  predicate Uploaded(e: Started) { e.ok && e.call.Push? }
  predicate Downloaded(e: Started) { e.ok && e.call.Pull? }
  predicate Failed(e: Started) { !e.ok }

  /** How many entries of the log satisfy `p`, counted from the front. */
  function CountOf(log: seq<Started>, p: Started -> bool): nat
    decreases |log|
  {
    if |log| == 0 then 0 else (if p(log[0]) then 1 else 0) + CountOf(log[1..], p)
  }

  /** Counting an entry appended at the back. */
  lemma {:induction false} CountOfSnoc(log: seq<Started>, x: Started, p: Started -> bool)
    ensures CountOf(log + [x], p) == CountOf(log, p) + (if p(x) then 1 else 0)
    decreases |log|
  {
    if |log| > 0 {
      assert (log + [x])[1..] == log[1..] + [x];
      CountOfSnoc(log[1..], x, p);
    }
  }

  /** One more item counted. */
  function Count(s: Stats, upload: bool, ok: bool): Stats {
    if !ok then s.(error := s.error + 1)
    else if upload then s.(upload := s.upload + 1)
    else s.(download := s.download + 1)
  }

  /** Every upload lands in a directory the pre-pass looked at, and every
      download lands on a local path ending in the record's relative path. */
  lemma TargetsPrepared(ops: seq<Op>, i: nat, localPath: string, devicePath: string)
    requires i < |ops|
    ensures ops[i].Upload? ==>
      Paths.Dirname(Attempt(ops[i], localPath, devicePath).target) in RemoteDirs(ops, devicePath)
    ensures ops[i].Download? ==>
      var target := Attempt(ops[i], localPath, devicePath).target;
      |target| >= |PathOf(ops[i])| && target[|target| - |PathOf(ops[i])|..] == PathOf(ops[i])
  {
  }

  /** The directories an upload in `ops` lands in. */
  function RemoteDirs(ops: seq<Op>, devicePath: string): set<string> {
    set i | 0 <= i < |ops| && ops[i].Upload? :: Paths.Dirname(RemoteTarget(devicePath, PathOf(ops[i])))
  }

  /** The pre-pass: every distinct remote directory is checked once and
      created when missing (the result of `mkdir` is ignored). Returns the
      directories `mkdir` was called on. */
  method CreateRemoteDirs(ops: seq<Op>, devicePath: string, t: Transport) returns (made: seq<string>)
    ensures Distinct(made)
    ensures forall d :: d in made <==> d in RemoteDirs(ops, devicePath) && !t.pathExists(d)
  {
    var dirs := Enumerate(RemoteDirs(ops, devicePath));
    made := [];
    var k := 0;
    while k < |dirs|
      invariant 0 <= k <= |dirs|
      invariant Distinct(made)
      invariant forall d :: d in made <==> d in dirs[..k] && !t.pathExists(d)
    {
      var d := dirs[k];
      if !t.pathExists(d) {
        var _ := t.mkdir(d);
        made := made + [d];
      }
      assert dirs[..k + 1] == dirs[..k] + [d];
      k := k + 1;
    }
    assert dirs[..k] == dirs;
  }

  /** The transfer loop. The stop flag is read before each item and, once
      raised, stays raised; `stopAt` is the first item before which it is
      seen raised, so items `0 .. stopAt - 1` are started and the loop ends
      there. Each started item is reported (its description, its index,
      the total) before its transfer is requested, and the counters are the
      tally of exactly the started items. */
  method Transfer(ops: seq<Op>, localPath: string, devicePath: string, t: Transport, stopAt: nat)
    returns (log: seq<Started>, stats: Stats)
    ensures |log| == (if stopAt < |ops| then stopAt else |ops|)
    ensures forall i :: 0 <= i < |log| ==> log[i] == Entry(ops, i, localPath, devicePath, t)
    ensures stats == Tally(log)
  {
    log, stats := [], Stats(0, 0, 0, 0);
    var idx := 0;
    while idx < |ops|
      invariant 0 <= idx <= |ops| && idx <= stopAt
      invariant log == Run(ops, idx, localPath, devicePath, t)
      invariant stats == Tally(log)
    {
      if idx == stopAt {
        break;
      }
      var op := ops[idx];
      var report := Progress(Describe(op), idx, |ops|);
      var call := Attempt(op, localPath, devicePath);
      var ok := t.transfer(call);
      if !ok {
        stats := stats.(error := stats.error + 1);
      } else if call.Push? {
        stats := stats.(upload := stats.upload + 1);
      } else {
        stats := stats.(download := stats.download + 1);
      }
      log := log + [Started(report, call, ok)];
      assert log[..idx] == Run(ops, idx, localPath, devicePath, t);
      idx := idx + 1;
    }
    RunEntries(ops, idx, localPath, devicePath, t);
  }

  /** Carries out `ops`: the pre-pass, only when there is something to do,
      then the transfer loop. */
  method Execute(ops: seq<Op>, localPath: string, devicePath: string, t: Transport, stopAt: nat)
    returns (made: seq<string>, log: seq<Started>, stats: Stats)
    ensures |ops| == 0 ==> made == [] && log == [] && stats == Stats(0, 0, 0, 0)
    ensures |ops| > 0 ==> Distinct(made) && forall d :: d in made <==> d in RemoteDirs(ops, devicePath) && !t.pathExists(d)
    ensures |log| == (if stopAt < |ops| then stopAt else |ops|)
    ensures forall i :: 0 <= i < |log| ==> log[i] == Entry(ops, i, localPath, devicePath, t)
    ensures stats == Tally(log)
  {
    made := [];
    if |ops| > 0 {
      made := CreateRemoteDirs(ops, devicePath, t);
    }
    log, stats := Transfer(ops, localPath, devicePath, t, stopAt);
  }
}

/** The plugin contract: the hooks the engine consults, and the base
    plugin's defaults that every plugin inherits. */
module Plugins {
  import opened Wrappers
  import opened Pipelines
  import opened Records

  /** The record handed to `on_file_filter`: `is_dir` is always false there,
      and only local candidates carry a full path. */
  datatype Candidate = Candidate(relPath: string, size: nat, mtime: int, fullPath: Option<string>)

  /** The answers `on_conflict` (and a caller's conflict callback) give;
      any other text means "skip" too. */
  const KeepLocal: string := "local"
  const KeepDevice: string := "device"
  const SkipDecision: string := "skip"

  /** A plugin instance: its stored configuration and its hooks. Every
      plugin subclasses the base plugin, so every hook is always present.
      `onSyncStart` returns the device directories it creates, given the
      device's existence test; a hook that raises returns `Err`. */
  datatype Plugin = Plugin(
    config: PluginConfig,
    onPathResolve: Pipeline -> Result<(string, string)>,
    onFileFilter: Candidate -> bool,
    onConflict: (FileInfo, FileInfo) -> string,
    onSyncStart: (Pipeline, string -> bool) -> Result<seq<string>>)

  /** `BasePlugin(config)`: stores the configuration as given, resolves the
      pipeline's own paths, accepts every file, skips every conflict and
      does nothing when a sync starts. */
  function BasePlugin(config: PluginConfig): (p: Plugin)
    ensures p.config == config
    ensures forall pl: Pipeline :: p.onPathResolve(pl) == Ok((pl.local, pl.device))
    ensures forall c: Candidate :: p.onFileFilter(c)
    ensures forall l: FileInfo, d: FileInfo :: p.onConflict(l, d) == SkipDecision
    ensures forall pl: Pipeline, pathExists: string -> bool :: p.onSyncStart(pl, pathExists) == Ok([])
  {
    Plugin(
      config,
      (pl: Pipeline) => Ok((pl.local, pl.device)),
      (c: Candidate) => true,
      (l: FileInfo, d: FileInfo) => SkipDecision,
      (pl: Pipeline, pathExists: string -> bool) => Ok([]))
  }
}

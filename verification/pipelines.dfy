/** The pipeline record: one configured sync job as the configuration file,
    the edit dialog and the sync engine see it. */
module Pipelines {
  import opened Wrappers

  /** A value in a plugin's JSON configuration, as far as plugins read it:
      a string, an integer, `true`/`false`, or anything else (list, object,
      float, null...). */
  datatype ConfigValue = CStr(str: string) | CInt(num: int) | CBool(flag: bool) | COther

  /** A plugin's configuration object, keyed by field name. */
  type PluginConfig = map<string, ConfigValue>

  /** The directions the edit dialog offers; the engine reads any other
      text as bidirectional. */
  const LocalToDeviceName: string := "local_to_device"
  const DeviceToLocalName: string := "device_to_local"
  const BidirectionalName: string := "bidirectional"

  /** One pipeline, with every key the edit dialog writes. `plugin` is
      `None` for "(no plugin)". */
  datatype Pipeline = Pipeline(
    name: string,
    local: string,
    device: string,
    deviceSerial: string,
    direction: string,
    includeExtensions: seq<string>,
    excludeExtensions: seq<string>,
    syncDays: int,
    plugin: Option<string>,
    pluginConfig: PluginConfig,
    autoSync: bool)
}

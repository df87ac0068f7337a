/** The run configuration built from the form's inputs. */
module Settings {
  /** The dictionary `create_config` returns: `depth_max`, `load_timeout` and four flags. */
  datatype Config = Config(
    depthMax: nat,
    loadTimeout: nat,
    includeExternalSites: bool,
    enableWhitelistUrl: bool,
    enableTrimUrl: bool,
    enableBlacklistUrl: bool)
}

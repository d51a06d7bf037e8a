/**
 The configuration record the notice builder reads (SharpBrakeCore/AirbrakeConfiguration.cs).
 Loading it from application settings is not part of this model.
 */
module AirbrakeConfiguration {
  import opened Common

  /** The notice endpoint used when no other server URI is configured. */
  const ServerUriDefault := "https://api.airbrake.io/notifier_api/v2/notices"

  datatype Configuration = Configuration(
    appVersion: Option<string>,
    apiKey: Option<string>,
    serverUri: string,
    environmentName: Option<string>,
    projectRoot: string)

  /**
   A freshly constructed configuration: the project root is the process's
   current directory, the server URI is the default, everything else is unset.
   */
  function DefaultConfiguration(currentDirectory: string): (c: Configuration)
    ensures c.serverUri == ServerUriDefault
    ensures c.projectRoot == currentDirectory
    ensures c.apiKey.None? && c.environmentName.None? && c.appVersion.None?
  {
    Configuration(None, None, ServerUriDefault, None, currentDirectory)
  }
}

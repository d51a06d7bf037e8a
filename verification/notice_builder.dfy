/**
 The core notice builder (SharpBrakeCore/AirbrakeNoticeBuilder.cs). The virtual
 Url, Session, Params and CgiData steps are function-valued hooks; a specialised
 builder is a builder value with other hooks.
 */
module AirbrakeNoticeBuilder {
  import opened Common
  import opened Reflection
  import opened Serialization
  import opened Extensions
  import opened AirbrakeConfiguration
  import opened ExceptionInformation

  /** EnvironmentInformation: built from the configuration, handed to every hook. */
  datatype EnvironmentInfo = EnvironmentInfo(configuration: Configuration)

  /** The overridable steps of Request. */
  datatype Hooks = Hooks(
    url: (Info, EnvironmentInfo) -> Option<string>,
    session: (Info, EnvironmentInfo) -> seq<Var>,
    params: (Info, EnvironmentInfo) -> seq<Var>,
    cgiData: (Info, EnvironmentInfo) -> seq<Var>)

  /** A constructed builder: its configuration, its own notifier and server environment, its hooks. */
  datatype Builder = Builder(
    configuration: Configuration,
    notifier: Notifier,
    serverEnvironment: ServerEnvironment,
    hooks: Hooks)

  const NotifierUrl := "https://github.com/kayoom/SharpBrake"
  const CoreNotifierName := "SharpBrakeCore"

  /** The server environment snapshot taken from the configuration. */
  function ServerEnvironmentOf(c: Configuration): ServerEnvironment
  {
    ServerEnvironment(c.projectRoot, c.environmentName, c.appVersion)
  }

  /** The default Url step: the catching file. */
  function DefaultUrl(info: Info, env: EnvironmentInfo): Option<string>
  {
    info.catchingFile
  }

  /** The default Session, Params and CgiData steps: no vars. */
  function NoVars(info: Info, env: EnvironmentInfo): seq<Var>
  {
    []
  }

  function DefaultHooks(): Hooks
  {
    Hooks(DefaultUrl, NoVars, NoVars, NoVars)
  }

  /**
   The constructor: a null configuration is rejected; otherwise the builder
   keeps the configuration, snapshots its server environment and identifies
   itself as SharpBrakeCore with the given assembly version.
   */
  function NewBuilder(configuration: Option<Configuration>, version: string): (r: Result<Builder>)
    ensures configuration.None? <==> r.Failure?
    ensures r.Failure? ==> r.fault == ArgumentNull("configuration")
    ensures r.Success? ==>
      && r.value.configuration == configuration.value
      && r.value.notifier == Notifier(CoreNotifierName, NotifierUrl, version)
      && r.value.serverEnvironment.projectRoot == configuration.value.projectRoot
      && r.value.serverEnvironment.environmentName == configuration.value.environmentName
      && r.value.serverEnvironment.appVersion == configuration.value.appVersion
  {
    if configuration.None? then Failure(ArgumentNull("configuration"))
    else
      var c := configuration.value;
      Success(Builder(c, Notifier(CoreNotifierName, NotifierUrl, version), ServerEnvironmentOf(c), DefaultHooks()))
  }

  /**
   Error: the exception class's full name, the summary's message and catching
   method, and the trace lines, verbatim and in order, as the backtrace.
   */
  function ErrorOf(info: Info): (e: Error)
    ensures e.className == info.exceptionClass.fullName
    ensures e.message == info.message
    ensures e.catchingMethod == info.catchingMethod
    ensures e.backtrace == info.traceLines
  {
    Error(info.exceptionClass.fullName, info.message, info.catchingMethod, info.traceLines)
  }

  /**
   Request: the component is the catching file, the action the catching
   method's name; url, cgi-data, params and session come from the hooks.
   */
  function RequestOf(info: Info, env: EnvironmentInfo, hooks: Hooks): (r: Request)
    ensures r.component == info.catchingFile
    ensures r.action == info.catchingMethod.name
    ensures r.url == hooks.url(info, env)
    ensures r.cgiData == hooks.cgiData(info, env)
    ensures r.params == hooks.params(info, env)
    ensures r.session == hooks.session(info, env)
  {
    Request(hooks.url(info, env), info.catchingFile, info.catchingMethod.name,
            hooks.cgiData(info, env), hooks.params(info, env), hooks.session(info, env))
  }

  /**
   Notice: a null exception is rejected; otherwise the notice carries the
   configured API key, the builder's notifier and server environment, and the
   error and request built from the exception's summary.
   */
  function NoticeOf(b: Builder, exception: Option<Exception>, asm: Assemblies): (r: Result<Notice>)
    requires exception.Some? ==> Describable(exception.value, asm)
    ensures exception.None? <==> r.Failure?
    ensures r.Failure? ==> r.fault == ArgumentNull("exception")
    ensures r.Success? ==>
      var info := Describe(exception.value, asm);
      && r.value.apiKey == b.configuration.apiKey
      && r.value.notifier == b.notifier
      && r.value.serverEnvironment == b.serverEnvironment
      && r.value.error == ErrorOf(info)
      && r.value.request == RequestOf(info, EnvironmentInfo(b.configuration), b.hooks)
  {
    if exception.None? then Failure(ArgumentNull("exception"))
    else
      var info := Describe(exception.value, asm);
      var env := EnvironmentInfo(b.configuration);
      Success(Notice(b.configuration.apiKey, b.notifier, b.serverEnvironment, ErrorOf(info), RequestOf(info, env, b.hooks)))
  }

  /**
   A notice from the plain core builder: the request points at the catching
   file and method and carries no vars; the error's backtrace starts at the
   catching method, and a frame with a known source line keeps a positive
   line number.
   */
  lemma CoreNotice(c: Configuration, version: string, e: Exception, asm: Assemblies)
    requires Describable(e, asm)
    ensures NewBuilder(Some(c), version).Success?
    ensures
      var n := NoticeOf(NewBuilder(Some(c), version).value, Some(e), asm).value;
      var info := Describe(e, asm);
      && n.apiKey == c.apiKey
      && n.serverEnvironment.environmentName == c.environmentName
      && n.notifier.name == CoreNotifierName
      && n.request.url == info.catchingFile
      && n.request.component == info.catchingFile
      && n.request.action == info.catchingMethod.name
      && n.request.cgiData == [] && n.request.params == [] && n.request.session == []
      && n.error.className == e.exceptionType.fullName
      && |n.error.backtrace| > 0
      && (HasFrames(e) ==>
            && n.error.backtrace[0].methodName == e.frames.value[0].methodBase.name
            && (e.frames.value[0].fileLineNumber > 0 ==> n.error.backtrace[0].lineNumber > 0)
            && (e.frames.value[0].fileLineNumber == 0 && e.frames.value[0].ilOffset > 0 ==> n.error.backtrace[0].lineNumber > 0))
  {
    TraceStartsAtCatchingMethod(e, asm);
  }

  /**
   BuildVars over a NameValueCollection: nothing for a null or empty
   collection, otherwise exactly ToAirbrakeVars of it.
   */
  function BuildVars(nv: Option<NameValueCollection>): (r: seq<Var>)
    ensures nv.None? || |nv.value| == 0 ==> r == []
    ensures nv.Some? ==> r == ToAirbrakeVars(nv.value)
  {
    if nv.None? || |nv.value| == 0 then [] else ToAirbrakeVars(nv.value)
  }

  /** Entries with an empty value or an empty key are dropped; the rest are kept in order. */
  lemma BuildVarsDropsEmptyEntries()
    ensures BuildVars(Some([Entry(Some("k1"), Some("")), Entry(Some(""), Some("v2")), Entry(Some("k3"), Some("v3"))]))
            == [Var("k3", "v3")]
  {
    var nv := [Entry(Some("k1"), Some("")), Entry(Some(""), Some("v2")), Entry(Some("k3"), Some("v3"))];
    assert nv[1..][1..] == [nv[2]];
    assert nv[1..][1..][1..] == [];
    assert SelectVars(nv[1..][1..], Raw) == [Var("k3", "v3")];
    assert SelectVars(nv[1..], Raw) == [Var("k3", "v3")];
    assert SelectVars(nv, Raw) == [Var("k3", "v3")];
  }
}

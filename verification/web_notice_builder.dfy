/**
 The web notice builder (SharpBrakeWeb/AirbrakeNoticeBuilder.cs): the core
 builder with its own notifier name and with hooks that read the current HTTP
 request, the session and the machine environment, given here as plain values.
 */
module WebNoticeBuilder {
  import opened Common
  import opened Reflection
  import opened Serialization
  import opened Extensions
  import opened AirbrakeConfiguration
  import opened ExceptionInformation
  import Core = AirbrakeNoticeBuilder

  const WebNotifierName := "SharpBrakeWeb"

  /** The ten HttpBrowserCapabilities properties reported, each already rendered as text. */
  datatype Browser = Browser(
    browser: string,
    clrVersion: string,
    cookies: string,
    crawler: string,
    ecmaScriptVersion: string,
    javaApplets: string,
    majorVersion: string,
    minorVersion: string,
    platform: string,
    w3cDomVersion: string)

  /** The keys of the browser vars, in the order they are reported. */
  const BrowserKeys: seq<string> := [
    "Browser.Browser", "Browser.ClrVersion", "Browser.Cookies", "Browser.Crawler",
    "Browser.EcmaScriptVersion", "Browser.JavaApplets", "Browser.MajorVersion",
    "Browser.MinorVersion", "Browser.Platform", "Browser.W3CDomVersion"]

  /** The browser's property values, in the order of BrowserKeys. */
  function BrowserValues(b: Browser): seq<string>
  {
    [b.browser, b.clrVersion, b.cookies, b.crawler, b.ecmaScriptVersion, b.javaApplets,
     b.majorVersion, b.minorVersion, b.platform, b.w3cDomVersion]
  }

  /** Environment.MachineName, Environment.OSVersion and Environment.Version, rendered as text. */
  datatype MachineEnvironment = MachineEnvironment(machineName: string, osVersion: string, version: string)

  /** The keys of the environment vars, in the order they are reported. */
  const EnvironmentKeys: seq<string> := ["Environment.MachineName", "Environment.OSversion", "Environment.Version"]

  /** An HttpCookie, reduced to its Value. */
  datatype Cookie = Cookie(value: Option<string>)

  /** A session item, reduced to what its ToString() returns. */
  datatype SessionItem = SessionItem(text: Option<string>)

  /** An HttpCookieCollection: each key with the (possibly null) cookie its indexer returns. */
  type CookieCollection = seq<Entry<Option<Cookie>>>

  /** An HttpSessionState: each key with the (possibly null) item its indexer returns. */
  type SessionState = seq<Entry<Option<SessionItem>>>

  /** The parts of the current HttpRequest the builder reads. */
  datatype HttpRequest = HttpRequest(
    url: string,
    params: Option<NameValueCollection>,
    headers: Option<NameValueCollection>,
    cookies: Option<CookieCollection>,
    browser: Option<Browser>)

  /** The parts of the current HttpContext the builder reads. */
  datatype HttpContext = HttpContext(request: HttpRequest, session: Option<SessionState>)

  /** BrowserData: nothing without a browser, else the ten browser vars in fixed order, unfiltered. */
  function BrowserData(browser: Option<Browser>): (r: seq<Var>)
    ensures browser.None? ==> r == []
    ensures browser.Some? ==> |r| == |BrowserKeys| == 10
    ensures browser.Some? ==> forall i :: 0 <= i < |r| ==> r[i] == Var(BrowserKeys[i], BrowserValues(browser.value)[i])
  {
    if browser.None? then []
    else
      var b := browser.value;
      [ Var("Browser.Browser", b.browser),
        Var("Browser.ClrVersion", b.clrVersion),
        Var("Browser.Cookies", b.cookies),
        Var("Browser.Crawler", b.crawler),
        Var("Browser.EcmaScriptVersion", b.ecmaScriptVersion),
        Var("Browser.JavaApplets", b.javaApplets),
        Var("Browser.MajorVersion", b.majorVersion),
        Var("Browser.MinorVersion", b.minorVersion),
        Var("Browser.Platform", b.platform),
        Var("Browser.W3CDomVersion", b.w3cDomVersion) ]
  }

  /** EnvironmentData: the three machine vars in fixed order, unfiltered. */
  function EnvironmentData(m: MachineEnvironment): (r: seq<Var>)
    ensures |r| == |EnvironmentKeys| == 3
    ensures forall i :: 0 <= i < |r| ==> r[i].key == EnvironmentKeys[i]
    ensures r[0].value == m.machineName && r[1].value == m.osVersion && r[2].value == m.version
  {
    [ Var("Environment.MachineName", m.machineName),
      Var("Environment.OSversion", m.osVersion),
      Var("Environment.Version", m.version) ]
  }

  /** A cookie's value, or null when the cookie itself is null. */
  function CookieValue(cookie: Option<Cookie>): Option<string>
  {
    if cookie.Some? then cookie.value.value else None
  }

  /**
   BuildVars over cookies: nothing for a null or empty collection; otherwise a
   var is in the result exactly when its key and value are non-empty and the
   collection maps that key to a cookie with that value.
   */
  function CookieVars(cookies: Option<CookieCollection>): (r: seq<Var>)
    ensures cookies.None? || |cookies.value| == 0 ==> r == []
    ensures cookies.Some? && |cookies.value| > 0 ==> r == SelectVars(cookies.value, CookieValue)
    ensures cookies.Some? ==> forall v :: v in r <==>
      v.key != "" && v.value != "" && Entry(Some(v.key), Some(Cookie(Some(v.value)))) in cookies.value
  {
    if cookies.None? || |cookies.value| == 0 then []
    else
      var cs := cookies.value;
      var r := SelectVars(cs, CookieValue);
      forall v: Var
        ensures v in r <==> v.key != "" && v.value != "" && Entry(Some(v.key), Some(Cookie(Some(v.value)))) in cs
      {
        SelectVarsMembership(cs, CookieValue, v);
        if v in r {
          var i :| 0 <= i < |cs| && Keeps(cs[i], CookieValue) && VarOf(cs[i], CookieValue) == v;
          assert cs[i] == Entry(Some(v.key), Some(Cookie(Some(v.value))));
        }
        if v.key != "" && v.value != "" && Entry(Some(v.key), Some(Cookie(Some(v.value)))) in cs {
          var i :| 0 <= i < |cs| && cs[i] == Entry(Some(v.key), Some(Cookie(Some(v.value))));
          assert Keeps(cs[i], CookieValue) && VarOf(cs[i], CookieValue) == v;
        }
      }
      r
  }

  /** A session item's ToString(), or null when the item itself is null. */
  function SessionText(item: Option<SessionItem>): Option<string>
  {
    if item.Some? then item.value.text else None
  }

  /**
   BuildVars over the session: nothing for a null or empty session; otherwise a
   var is in the result exactly when its key and value are non-empty and the
   session maps that key to an item whose ToString() is that value.
   */
  function SessionVars(session: Option<SessionState>): (r: seq<Var>)
    ensures session.None? || |session.value| == 0 ==> r == []
    ensures session.Some? && |session.value| > 0 ==> r == SelectVars(session.value, SessionText)
    ensures session.Some? ==> forall v :: v in r <==>
      v.key != "" && v.value != "" && Entry(Some(v.key), Some(SessionItem(Some(v.value)))) in session.value
  {
    if session.None? || |session.value| == 0 then []
    else
      var ss := session.value;
      var r := SelectVars(ss, SessionText);
      forall v: Var
        ensures v in r <==> v.key != "" && v.value != "" && Entry(Some(v.key), Some(SessionItem(Some(v.value)))) in ss
      {
        SelectVarsMembership(ss, SessionText, v);
        if v in r {
          var i :| 0 <= i < |ss| && Keeps(ss[i], SessionText) && VarOf(ss[i], SessionText) == v;
          assert ss[i] == Entry(Some(v.key), Some(SessionItem(Some(v.value))));
        }
        if v.key != "" && v.value != "" && Entry(Some(v.key), Some(SessionItem(Some(v.value)))) in ss {
          var i :| 0 <= i < |ss| && ss[i] == Entry(Some(v.key), Some(SessionItem(Some(v.value))));
          assert Keeps(ss[i], SessionText) && VarOf(ss[i], SessionText) == v;
        }
      }
      r
  }

  /**
   CgiData: the environment vars, then the header vars, then the cookie vars,
   then the browser vars, each block intact and in that order.
   */
  function CgiData(m: MachineEnvironment, request: HttpRequest): (r: seq<Var>)
    ensures
      var h := Core.BuildVars(request.headers);
      var c := CookieVars(request.cookies);
      var b := BrowserData(request.browser);
      && |r| == 3 + |h| + |c| + |b|
      && r[..3] == EnvironmentData(m)
      && r[3..3 + |h|] == h
      && r[3 + |h|..3 + |h| + |c|] == c
      && r[3 + |h| + |c|..] == b
  {
    var e := EnvironmentData(m);
    var h := Core.BuildVars(request.headers);
    var c := CookieVars(request.cookies);
    var b := BrowserData(request.browser);
    BlockSlices(e, h, c, b);
    e + h + c + b
  }

  /** Where each of four concatenated blocks sits in the whole. */
  lemma BlockSlices(e: seq<Var>, h: seq<Var>, c: seq<Var>, b: seq<Var>)
    ensures
      var r := e + h + c + b;
      && r[..|e|] == e
      && r[|e|..|e| + |h|] == h
      && r[|e| + |h|..|e| + |h| + |c|] == c
      && r[|e| + |h| + |c|..] == b
  {
  }

  /** The web builder's hooks: the request URL, the filtered params, the cgi-data blocks and the filtered session. */
  function WebHooks(m: MachineEnvironment, context: HttpContext): Core.Hooks
  {
    Core.Hooks(
      (info: Info, env: Core.EnvironmentInfo) => Some(context.request.url),
      (info: Info, env: Core.EnvironmentInfo) => SessionVars(context.session),
      (info: Info, env: Core.EnvironmentInfo) => Core.BuildVars(context.request.params),
      (info: Info, env: Core.EnvironmentInfo) => CgiData(m, context.request))
  }

  /**
   The web builder's constructor: the core constructor (so a null
   configuration is rejected), then the notifier renamed to SharpBrakeWeb with
   the core's URL, and the web hooks in place of the defaults.
   */
  function NewWebBuilder(configuration: Option<Configuration>, version: string, m: MachineEnvironment, context: HttpContext)
    : (r: Result<Core.Builder>)
    ensures configuration.None? <==> r.Failure?
    ensures r.Failure? ==> r.fault == ArgumentNull("configuration")
    ensures r.Success? ==>
      && r.value.configuration == configuration.value
      && r.value.notifier == Notifier(WebNotifierName, Core.NotifierUrl, version)
      && r.value.serverEnvironment == Core.NewBuilder(configuration, version).value.serverEnvironment
  {
    match Core.NewBuilder(configuration, version)
    case Failure(f) => Failure(f)
    case Success(b) =>
      Success(b.(notifier := Notifier(WebNotifierName, Core.NotifierUrl, version), hooks := WebHooks(m, context)))
  }

  /**
   A notice from the web builder: the request's URL is the HTTP request's URL,
   component and action still come from the catching method, params and session
   are the filtered collections (no empty key or value), and cgi-data opens
   with the three environment vars.
   */
  lemma WebNotice(c: Configuration, version: string, m: MachineEnvironment, context: HttpContext, e: Exception, asm: Assemblies)
    requires Describable(e, asm)
    ensures NewWebBuilder(Some(c), version, m, context).Success?
    ensures
      var n := Core.NoticeOf(NewWebBuilder(Some(c), version, m, context).value, Some(e), asm).value;
      var info := Describe(e, asm);
      && n.apiKey == c.apiKey
      && n.notifier.name == WebNotifierName
      && n.request.url == Some(context.request.url)
      && n.request.component == info.catchingFile
      && n.request.action == info.catchingMethod.name
      && n.request.params == Core.BuildVars(context.request.params)
      && n.request.session == SessionVars(context.session)
      && n.request.cgiData == CgiData(m, context.request)
      && n.request.cgiData[..3] == EnvironmentData(m)
      && (forall i :: 0 <= i < |n.request.params| ==> n.request.params[i].key != "" && n.request.params[i].value != "")
      && (forall i :: 0 <= i < |n.request.session| ==> n.request.session[i].key != "" && n.request.session[i].value != "")
  {
    var b := NewWebBuilder(Some(c), version, m, context).value;
    var n := Core.NoticeOf(b, Some(e), asm).value;
    var info := Describe(e, asm);
    var env := Core.EnvironmentInfo(c);
    assert n.request == Core.RequestOf(info, env, b.hooks);
    assert n.request.params == Core.BuildVars(context.request.params);
    assert n.request.session == SessionVars(context.session);
    if context.request.params.Some? {
      assert n.request.params == SelectVars(context.request.params.value, Raw);
    }
    if context.session.Some? && |context.session.value| > 0 {
      assert n.request.session == SelectVars(context.session.value, SessionText);
    }
  }
}

/**
 The records a notice is made of and the records read back from a response.
 Their field sets follow the notice schema; the classes themselves live in the
 serialization namespace, which is not part of this model.
 */
module Serialization {
  import opened Common
  import opened Reflection

  /** One key/value pair of cgi-data, params or session (AirbrakeVar). */
  datatype Var = Var(key: string, value: string)

  /** One backtrace line (AirbrakeTraceLine). */
  datatype TraceLine = TraceLine(file: string, lineNumber: int, methodName: string)

  /** AirbrakeTraceLine.Empty: stands for a stack that captured no frames. */
  const EmptyTraceLine := TraceLine("", 0, "")

  /** Identity of the reporting library (AirbrakeNotifier). */
  datatype Notifier = Notifier(name: string, url: string, version: string)

  /** Configuration snapshot sent with every notice (AirbrakeServerEnvironment). */
  datatype ServerEnvironment = ServerEnvironment(projectRoot: string, environmentName: Option<string>, appVersion: Option<string>)

  /** The error block of a notice (AirbrakeError). */
  datatype Error = Error(className: string, message: string, catchingMethod: MethodRef, backtrace: seq<TraceLine>)

  /** The request block of a notice (AirbrakeRequest). */
  datatype Request = Request(
    url: Option<string>,
    component: Option<string>,
    action: string,
    cgiData: seq<Var>,
    params: seq<Var>,
    session: seq<Var>)

  /** The notice document (AirbrakeNotice). */
  datatype Notice = Notice(
    apiKey: Option<string>,
    notifier: Notifier,
    serverEnvironment: ServerEnvironment,
    error: Error,
    request: Request)

  /** One validation error returned by the server (AirbrakeResponseError). */
  datatype ResponseError = ResponseError(message: string)

  /** The identifiers returned for an accepted notice (AirbrakeResponseNotice). */
  datatype ResponseNotice = ResponseNotice(id: int, errorId: int, url: Option<string>)
}

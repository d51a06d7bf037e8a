/**
 The portable summary of a thrown exception (SharpBrakeCore/ExceptionInformation.cs):
 its message, the method and file that caught it, and one trace line per frame.
 */
module ExceptionInformation {
  import opened Common
  import opened Reflection
  import opened Serialization

  /** The read-only summary of one exception (IExceptionInformation). */
  datatype Info = Info(
    message: string,
    exceptionClass: TypeRef,
    traceLines: seq<TraceLine>,
    catchingMethod: MethodRef,
    catchingFile: Option<string>)

  /** The message: the exception type's short name, ": ", then the exception's own message. */
  function ExceptionMessage(e: Exception): (m: string)
    ensures |m| == |e.exceptionType.name| + 2 + |e.message|
    ensures m[..|e.exceptionType.name|] == e.exceptionType.name
    ensures m[|e.exceptionType.name|..|e.exceptionType.name| + 2] == ": "
    ensures m[|e.exceptionType.name| + 2..] == e.message
  {
    e.exceptionType.name + ": " + e.message
  }

  /**
   The first non-null entry point among the candidates, in order.
   A reference definition for EntryPoint.
   */
  function FirstPresent(candidates: seq<Option<MethodRef>>): Option<MethodRef>
  {
    if |candidates| == 0 then None
    else if candidates[0].Some? then candidates[0]
    else FirstPresent(candidates[1..])
  }

  /**
   GetEntryPoint: start from the executing assembly; when it has no entry point
   switch to the calling assembly; when that has none either switch to the entry
   assembly, which may itself be null.
   */
  function EntryPoint(asm: Assemblies): (m: Option<MethodRef>)
    ensures m.None? <==>
      asm.executing.entryPoint.None? && asm.calling.entryPoint.None? && (asm.entry.None? || asm.entry.value.entryPoint.None?)
  {
    var chosen :=
      if asm.executing.entryPoint.Some? then Some(asm.executing)
      else if asm.calling.entryPoint.Some? then Some(asm.calling)
      else asm.entry;
    if chosen.None? then None else chosen.value.entryPoint
  }

  /** The entry point is the first one present, in the order executing, calling, entry assembly. */
  lemma EntryPointIsFirstPresent(asm: Assemblies)
    ensures EntryPoint(asm) == FirstPresent([asm.executing.entryPoint, asm.calling.entryPoint,
                                             if asm.entry.Some? then asm.entry.value.entryPoint else None])
  {
    var c := [asm.executing.entryPoint, asm.calling.entryPoint,
              if asm.entry.Some? then asm.entry.value.entryPoint else None];
    assert c[1..] == [c[1], c[2]];
    assert c[1..][1..] == [c[2]];
    assert c[1..][1..][1..] == [];
    assert FirstPresent(c[1..][1..]) == c[2];
    assert FirstPresent(c[1..]) == if c[1].Some? then c[1] else c[2];
  }

  /**
   TraceLineForFrame: the line number is the file line, or the IL offset when
   the file line is 0; the file is the frame's file name, or the reflected
   type's full name when the file name is null or empty, or "(unknown)" when
   there is no reflected type either; the method is the frame's method name.
   */
  function TraceLineForFrame(f: Frame): (t: TraceLine)
    ensures t.methodName == f.methodBase.name
    ensures t.lineNumber == (if f.fileLineNumber != 0 then f.fileLineNumber else f.ilOffset)
    ensures !IsNullOrEmpty(f.fileName) ==> t.file == f.fileName.value
    ensures IsNullOrEmpty(f.fileName) && f.methodBase.reflectedType.Some? ==> t.file == f.methodBase.reflectedType.value.fullName
    ensures IsNullOrEmpty(f.fileName) && f.methodBase.reflectedType.None? ==> t.file == "(unknown)"
  {
    var lineNumber := if f.fileLineNumber == 0 then f.ilOffset else f.fileLineNumber;
    var file :=
      if IsNullOrEmpty(f.fileName) then
        (if f.methodBase.reflectedType.Some? then f.methodBase.reflectedType.value.fullName else "(unknown)")
      else f.fileName.value;
    TraceLine(file, lineNumber, f.methodBase.name)
  }

  /** Only a frame whose file line and IL offset are both 0 yields line number 0. */
  lemma TraceLineNumberZeroOnlyIfUnknown(f: Frame)
    ensures TraceLineForFrame(f).lineNumber == 0 <==> f.fileLineNumber == 0 && f.ilOffset == 0
  {
  }

  /**
   The source dereferences the entry point when no frame was captured, so a
   summary exists only when there are frames or some assembly has an entry point.
   */
  predicate Describable(e: Exception, asm: Assemblies)
  {
    HasFrames(e) || EntryPoint(asm).Some?
  }

  /**
   The ExceptionInformation constructor: the message, the exception's type, and
   ProcessStackTrace's catching method, catching file and trace lines.
   */
  function Describe(e: Exception, asm: Assemblies): (info: Info)
    requires Describable(e, asm)
    ensures info.message == ExceptionMessage(e)
    ensures info.exceptionClass == e.exceptionType
    ensures !HasFrames(e) ==>
      && info.traceLines == [EmptyTraceLine]
      && info.catchingMethod == EntryPoint(asm).value
      && info.catchingFile == Some(if info.catchingMethod.declaringType.Some?
                                   then info.catchingMethod.declaringType.value.fullName else "")
    ensures HasFrames(e) ==>
      && info.catchingMethod == e.frames.value[0].methodBase
      && info.catchingFile == (if info.catchingMethod.declaringType.Some?
                               then Some(info.catchingMethod.declaringType.value.fullName)
                               else e.frames.value[0].fileName)
      && |info.traceLines| == |e.frames.value|
      && forall i :: 0 <= i < |info.traceLines| ==> info.traceLines[i] == TraceLineForFrame(e.frames.value[i])
  {
    var (catchingMethod, catchingFile, traceLines) :=
      if !HasFrames(e) then
        var m := EntryPoint(asm).value;
        (m, Some(if m.declaringType.Some? then m.declaringType.value.fullName else ""), [EmptyTraceLine])
      else
        var frames := e.frames.value;
        var top := frames[0];
        var m := top.methodBase;
        (m,
         if m.declaringType.Some? then Some(m.declaringType.value.fullName) else top.fileName,
         seq(|frames|, i requires 0 <= i < |frames| => TraceLineForFrame(frames[i])));
    Info(ExceptionMessage(e), e.exceptionType, traceLines, catchingMethod, catchingFile)
  }

  /**
   Whatever was captured, the trace is never empty, and its first line names
   the catching method whenever a frame was captured.
   */
  lemma TraceStartsAtCatchingMethod(e: Exception, asm: Assemblies)
    requires Describable(e, asm)
    ensures |Describe(e, asm).traceLines| >= 1
    ensures HasFrames(e) ==> Describe(e, asm).traceLines[0].methodName == Describe(e, asm).catchingMethod.name
  {
  }
}

/**
 The parts of .NET reflection that exception processing reads: types, methods,
 stack frames and assemblies, given as plain values instead of runtime objects.
 */
module Reflection {
  import opened Common

  /** A System.Type: its short Name and its FullName. */
  datatype TypeRef = TypeRef(name: string, fullName: string)

  /** A MethodBase: its Name, DeclaringType and ReflectedType (either may be null). */
  datatype MethodRef = MethodRef(name: string, declaringType: Option<TypeRef>, reflectedType: Option<TypeRef>)

  /** A StackFrame: GetMethod, GetFileName, GetFileLineNumber and GetILOffset. */
  datatype Frame = Frame(methodBase: MethodRef, fileName: Option<string>, fileLineNumber: int, ilOffset: int)

  /** An Assembly, reduced to its EntryPoint. */
  datatype Assembly = Assembly(entryPoint: Option<MethodRef>)

  /**
   The three assemblies consulted for an entry point: the executing and the
   calling assembly always exist, the entry assembly may be null.
   */
  datatype Assemblies = Assemblies(executing: Assembly, calling: Assembly, entry: Option<Assembly>)

  /**
   A thrown exception: its runtime type, its Message, and the frames that
   new StackTrace(exception).GetFrames() returns (null when none were captured),
   innermost frame first.
   */
  datatype Exception = Exception(exceptionType: TypeRef, message: string, frames: Option<seq<Frame>>)

  /** True when the captured stack trace has at least one frame. */
  predicate HasFrames(e: Exception)
  {
    e.frames.Some? && |e.frames.value| > 0
  }
}

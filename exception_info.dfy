/**
 * The values the classifier and the presenters work on: stack-frame
 * locations, the raw exception as the host interpreter supplies it, and the
 * structured description extracted from it.
 */
module ExceptionInfo {
  import opened Wrappers

  /** One backtrace frame: a file path, a 1-based line number and the frame's label (its method name). */
  datatype Location = Location(path: string, linenum: int, frameLabel: string)

  /**
   * The exception object as the interpreter hands it over. `message` is
   * `None` when the object does not respond to `message`.
   */
  datatype RawException = RawException(
    className: string,
    message: Option<string>,
    rawBacktrace: seq<string>)

  /**
   * The fields that only some kinds of exception info carry. The arity
   * counts are `None` (Ruby's nil) when the message yielded no numbers.
   */
  datatype Detail =
    | Plain
    | WrongNumberOfArguments(numExpected: Option<nat>, numReceived: Option<nat>)
    | NoMethod(undefinedMethodName: string)

  /** A structured description of an exception; frame 0 is the innermost. */
  datatype ExceptionInfo = ExceptionInfo(
    exception: RawException,
    classname: string,
    explanation: string,
    backtrace: seq<Location>,
    detail: Detail)
}

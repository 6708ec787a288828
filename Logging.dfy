/**
 * Creation of Eclipse `IStatus` values for one plug-in
 * (de.sebthom.eclipse.commons.logging.StatusFactory).
 *
 * `NLS.bind(msg, args)` is a parameter `bind`: a `None` argument list is a
 * `null` array. A Java `null` string is `None`.
 */
module Logging {
  import opened Common

  /** `IStatus` severities. */
  const OK := 0
  const INFO := 1
  const WARNING := 2
  const ERROR := 4

  /** What a status needs of a `Throwable`: its class name and its (nullable) message. */
  datatype Throwable = Throwable(className: string, message: Option<string>)

  /** An `org.eclipse.core.runtime.Status`. */
  datatype Status = Status(severity: int, pluginId: string, code: int, message: string, exception: Option<Throwable>)

  /** The message formatter `NLS.bind(message, bindings)`. */
  type Binder = (string, Option<seq<string>>) -> string

  /** `Strings.isEmpty(s)`: null or of length 0. */
  predicate IsEmpty(s: Option<string>)
  {
    s.None? || s.value == []
  }

  /**
   * The message of the exception overload of `createStatus`: a non-empty
   * `msg` is formatted; without one, the exception's own message, or its
   * class name when that message is empty; without an exception, nothing.
   */
  function StatusMessage(ex: Option<Throwable>, msg: Option<string>, msgArgs: Option<seq<string>>, bind: Binder): (m: Option<string>)
    ensures m.None? <==> IsEmpty(msg) && ex.None?
    ensures !IsEmpty(msg) ==> m == Some(bind(msg.value, msgArgs))
    ensures IsEmpty(msg) && ex.Some? && !IsEmpty(ex.value.message) ==> m == ex.value.message
    ensures IsEmpty(msg) && ex.Some? && IsEmpty(ex.value.message) ==> m == Some(ex.value.className)
  {
    if !IsEmpty(msg) then Some(bind(msg.value, msgArgs))
    else if ex.None? then None
    else if IsEmpty(ex.value.message) then Some(ex.value.className)
    else ex.value.message
  }

  /** A status factory bound to the symbolic name of one bundle. */
  class StatusFactory {
    const pluginId: string

    /** `StatusFactory(bundle)` and `StatusFactory(plugin)`: the bundle's symbolic name. */
    constructor (symbolicName: string)
      ensures pluginId == symbolicName
    {
      pluginId := symbolicName;
    }

    /**
     * `createStatus(severity, msg, msgArgs...)`: code `OK`, no exception;
     * the message is `msg` itself unless there are arguments to bind.
     */
    function CreateStatus(severity: int, msg: string, msgArgs: Option<seq<string>>, bind: Binder): (s: Status)
      ensures s.severity == severity && s.pluginId == pluginId && s.code == OK && s.exception == None
      ensures msgArgs == None || msgArgs == Some([]) ==> s.message == msg
      ensures msgArgs.Some? && msgArgs.value != [] ==> s.message == bind(msg, msgArgs)
    {
      if msgArgs == None || |msgArgs.value| == 0 then Status(severity, pluginId, OK, msg, None)
      else Status(severity, pluginId, OK, bind(msg, msgArgs), None)
    }

    /**
     * `createStatus(severity, ex, msg, msgArgs...)`: the status carries the
     * exception and uses the severity as its code; it is refused when there
     * is neither a message nor an exception.
     */
    function CreateExceptionStatus(severity: int, ex: Option<Throwable>, msg: Option<string>, msgArgs: Option<seq<string>>, bind: Binder): (r: Result<Status>)
      ensures r.Throws? <==> IsEmpty(msg) && ex.None?
      ensures r.Throws? ==> r.error == IllegalArgument("[ex] or [msg] must be specified")
      ensures r.Ok? ==>
        && r.value.severity == severity && r.value.code == severity
        && r.value.pluginId == pluginId && r.value.exception == ex
        && Some(r.value.message) == StatusMessage(ex, msg, msgArgs, bind)
    {
      var statusMsg := StatusMessage(ex, msg, msgArgs, bind);
      if statusMsg.None? then Throws(IllegalArgument("[ex] or [msg] must be specified"))
      else Ok(Status(severity, pluginId, severity, statusMsg.value, ex))
    }

    /** `createError(msg, msgArgs...)`. */
    function CreateError(msg: string, msgArgs: Option<seq<string>>, bind: Binder): (s: Status)
      ensures s.severity == ERROR && s.code == OK && s.pluginId == pluginId && s.exception == None
      ensures s.message == if msgArgs == None || msgArgs == Some([]) then msg else bind(msg, msgArgs)
    {
      CreateStatus(ERROR, msg, msgArgs, bind)
    }

    /** `createError(ex)`: the exception's message, bound without arguments. */
    function CreateErrorOf(ex: Throwable, bind: Binder): (s: Status)
      ensures s.severity == ERROR && s.code == ERROR && s.pluginId == pluginId && s.exception == Some(ex)
      ensures s.message == if IsEmpty(ex.message) then ex.className else bind(ex.message.value, Some([]))
    {
      ExceptionStatusIsTotal(this, ERROR, ex, bind);
      CreateExceptionStatus(ERROR, Some(ex), ex.message, Some([]), bind).value
    }

    /** `createError(ex, msg, msgArgs...)`. */
    function CreateErrorWith(ex: Option<Throwable>, msg: Option<string>, msgArgs: Option<seq<string>>, bind: Binder): (r: Result<Status>)
      ensures r.Throws? <==> IsEmpty(msg) && ex.None?
      ensures r.Ok? ==> r.value.severity == ERROR && r.value.code == ERROR && r.value.exception == ex
      ensures r.Ok? ==> r.value.pluginId == pluginId && Some(r.value.message) == StatusMessage(ex, msg, msgArgs, bind)
      ensures r.Throws? ==> r.error == IllegalArgument("[ex] or [msg] must be specified")
    {
      CreateExceptionStatus(ERROR, ex, msg, msgArgs, bind)
    }

    /** `createInfo(msg, msgArgs...)`. */
    function CreateInfo(msg: string, msgArgs: Option<seq<string>>, bind: Binder): (s: Status)
      ensures s.severity == INFO && s.code == OK && s.pluginId == pluginId && s.exception == None
      ensures s.message == if msgArgs == None || msgArgs == Some([]) then msg else bind(msg, msgArgs)
    {
      CreateStatus(INFO, msg, msgArgs, bind)
    }

    /** `createInfo(ex)`. */
    function CreateInfoOf(ex: Throwable, bind: Binder): (s: Status)
      ensures s.severity == INFO && s.code == INFO && s.pluginId == pluginId && s.exception == Some(ex)
      ensures s.message == if IsEmpty(ex.message) then ex.className else bind(ex.message.value, Some([]))
    {
      ExceptionStatusIsTotal(this, INFO, ex, bind);
      CreateExceptionStatus(INFO, Some(ex), ex.message, Some([]), bind).value
    }

    /** `createInfo(ex, msg, msgArgs...)`. */
    function CreateInfoWith(ex: Option<Throwable>, msg: Option<string>, msgArgs: Option<seq<string>>, bind: Binder): (r: Result<Status>)
      ensures r.Throws? <==> IsEmpty(msg) && ex.None?
      ensures r.Ok? ==> r.value.severity == INFO && r.value.code == INFO && r.value.exception == ex
      ensures r.Ok? ==> r.value.pluginId == pluginId && Some(r.value.message) == StatusMessage(ex, msg, msgArgs, bind)
      ensures r.Throws? ==> r.error == IllegalArgument("[ex] or [msg] must be specified")
    {
      CreateExceptionStatus(INFO, ex, msg, msgArgs, bind)
    }

    /** `createWarning(msg, msgArgs...)`. */
    function CreateWarning(msg: string, msgArgs: Option<seq<string>>, bind: Binder): (s: Status)
      ensures s.severity == WARNING && s.code == OK && s.pluginId == pluginId && s.exception == None
      ensures s.message == if msgArgs == None || msgArgs == Some([]) then msg else bind(msg, msgArgs)
    {
      CreateStatus(WARNING, msg, msgArgs, bind)
    }

    /** `createWarning(ex)`. */
    function CreateWarningOf(ex: Throwable, bind: Binder): (s: Status)
      ensures s.severity == WARNING && s.code == WARNING && s.pluginId == pluginId && s.exception == Some(ex)
      ensures s.message == if IsEmpty(ex.message) then ex.className else bind(ex.message.value, Some([]))
    {
      ExceptionStatusIsTotal(this, WARNING, ex, bind);
      CreateExceptionStatus(WARNING, Some(ex), ex.message, Some([]), bind).value
    }

    /** `createWarning(ex, msg, msgArgs...)`. */
    function CreateWarningWith(ex: Option<Throwable>, msg: Option<string>, msgArgs: Option<seq<string>>, bind: Binder): (r: Result<Status>)
      ensures r.Throws? <==> IsEmpty(msg) && ex.None?
      ensures r.Ok? ==> r.value.severity == WARNING && r.value.code == WARNING && r.value.exception == ex
      ensures r.Ok? ==> r.value.pluginId == pluginId && Some(r.value.message) == StatusMessage(ex, msg, msgArgs, bind)
      ensures r.Throws? ==> r.error == IllegalArgument("[ex] or [msg] must be specified")
    {
      CreateExceptionStatus(WARNING, ex, msg, msgArgs, bind)
    }
  }

  /**
   * A status made from an exception alone never fails: its message is the
   * exception's message (bound without arguments) or its class name.
   */
  lemma ExceptionStatusIsTotal(f: StatusFactory, severity: int, ex: Throwable, bind: Binder)
    ensures f.CreateExceptionStatus(severity, Some(ex), ex.message, Some([]), bind).Ok?
    ensures f.CreateExceptionStatus(severity, Some(ex), ex.message, Some([]), bind).value.message ==
      if IsEmpty(ex.message) then ex.className else bind(ex.message.value, Some([]))
  {
  }

  /**
   * A status message is never empty when it comes from the exception:
   * an exception whose message is empty contributes its class name.
   */
  lemma ExceptionMessageFallback(ex: Throwable, bind: Binder)
    requires ex.className != []
    ensures StatusMessage(Some(ex), None, None, bind).Some?
    ensures StatusMessage(Some(ex), None, None, bind).value != []
  {
  }
}

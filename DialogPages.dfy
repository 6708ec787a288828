/**
 * Showing a status on a JFace dialog page
 * (de.sebthom.eclipse.commons.ui.DialogPages.setMessage).
 *
 * The page's message state is the triple the setters write: the message,
 * its type and the error message. `setMessage` writes all three, so the
 * page's new state is a value computed from the status alone.
 */
module DialogPages {
  import opened Common
  import Logging

  /** `IMessageProvider` message types. */
  const NONE := 0
  const INFORMATION := 1
  const WARNING := 2
  const ERROR := 3

  /** What `DialogPage.getMessage()`, `getMessageType()` and `getErrorMessage()` return. */
  datatype PageMessages = PageMessages(message: Option<string>, messageType: int, errorMessage: Option<string>)

  /**
   * `setMessage(page, status)`: a null page or status is rejected;
   * otherwise an error status becomes the page's error message, and any
   * other status its ordinary message, typed by severity.
   */
  function SetMessage(page: Option<PageMessages>, status: Option<Logging.Status>): (r: Result<PageMessages>)
    ensures page.None? ==> r == Throws(ArgumentCheck("page"))
    ensures page.Some? && status.None? ==> r == Throws(ArgumentCheck("status"))
    ensures page.Some? && status.Some? ==> r.Ok?
    ensures r.Ok? && status.value.severity == Logging.ERROR ==>
      r.value == PageMessages(None, NONE, Some(status.value.message))
    ensures r.Ok? && status.value.severity != Logging.ERROR ==>
      r.value.message == Some(status.value.message) && r.value.errorMessage == None
    ensures r.Ok? ==> r.value.messageType == MessageType(status.value.severity)
  {
    if page.None? then Throws(ArgumentCheck("page"))
    else if status.None? then Throws(ArgumentCheck("status"))
    else
      var msg := status.value.message;
      match status.value.severity
      case 4 => Ok(PageMessages(None, NONE, Some(msg)))
      case 2 => Ok(PageMessages(Some(msg), WARNING, None))
      case 1 => Ok(PageMessages(Some(msg), INFORMATION, None))
      case _ => Ok(PageMessages(Some(msg), NONE, None))
  }

  /**
   * The message type the page shows for a severity: `WARNING` and `INFO`
   * map to their own types, everything else (`OK`, `CANCEL`, `ERROR`,
   * unknown values) to `NONE`.
   */
  function MessageType(severity: int): (t: int)
    ensures t == WARNING <==> severity == Logging.WARNING
    ensures t == INFORMATION <==> severity == Logging.INFO
    ensures t == NONE <==> severity != Logging.WARNING && severity != Logging.INFO
  {
    if severity == Logging.WARNING then WARNING
    else if severity == Logging.INFO then INFORMATION
    else NONE
  }

  /**
   * Exactly one of the two messages is shown: the error message for an
   * error status, the ordinary message otherwise.
   */
  lemma ErrorAndMessageExclusive(page: PageMessages, status: Logging.Status)
    ensures var r := SetMessage(Some(page), Some(status)).value;
      (r.errorMessage.Some? <==> status.severity == Logging.ERROR) &&
      (r.message.Some? <==> status.severity != Logging.ERROR)
  {
  }

  /** The page's previous messages never survive: the result depends on the status alone. */
  lemma SetMessageForgetsPage(page1: PageMessages, page2: PageMessages, status: Logging.Status)
    ensures SetMessage(Some(page1), Some(status)) == SetMessage(Some(page2), Some(status))
  {
  }

  /** Showing a status twice leaves the page as showing it once. */
  lemma SetMessageIsIdempotent(page: PageMessages, status: Logging.Status)
    ensures SetMessage(Some(SetMessage(Some(page), Some(status)).value), Some(status)) == SetMessage(Some(page), Some(status))
  {
  }

  /**
   * An error made by a status factory is shown as the page's error
   * message, a warning as a warning message, an information as an
   * information message.
   */
  lemma FactoryStatusesShown(f: Logging.StatusFactory, page: PageMessages, msg: string, bind: Logging.Binder)
    ensures SetMessage(Some(page), Some(f.CreateError(msg, None, bind))).value == PageMessages(None, NONE, Some(msg))
    ensures SetMessage(Some(page), Some(f.CreateWarning(msg, None, bind))).value == PageMessages(Some(msg), WARNING, None)
    ensures SetMessage(Some(page), Some(f.CreateInfo(msg, None, bind))).value == PageMessages(Some(msg), INFORMATION, None)
  {
  }
}

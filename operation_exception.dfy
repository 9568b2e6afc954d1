/**
 * OperationException: an immutable exception value carrying a return code,
 * the Throwable message, an optional caption and an optional cause.
 */
module Exceptions {
  import opened Wrappers
  import opened Strings

  /** The fully qualified class name that Throwable.toString prints. */
  const CLASS_NAME := "de.mhus.osgi.sop.api.operation.OperationException"

  /** A cause is kept only by its own rendered text; nothing reads into it. */
  datatype Cause = Cause(text: string)

  datatype OperationException = OperationException(
    returnCode: Long,
    message: Option<string>,
    caption: Option<string>,
    cause: Option<Cause>)

  /** The four-argument constructor every other one delegates to. */
  function WithCaptionAndCause(rc: Long, msg: Option<string>, caption: Option<string>, cause: Option<Cause>)
    : (e: OperationException)
    ensures e.returnCode == rc && e.message == msg && e.caption == caption && e.cause == cause
  {
    OperationException(rc, msg, caption, cause)
  }

  /** `new OperationException(rc)`: an empty message and no caption. */
  function FromCode(rc: Long): (e: OperationException)
    ensures e.returnCode == rc && e.message == Some("") && e.caption.None? && e.cause.None?
  {
    WithCaptionAndCause(rc, Some(""), None, None)
  }

  /** `new OperationException(rc, msg)`: no caption. */
  function WithMessage(rc: Long, msg: Option<string>): (e: OperationException)
    ensures e.returnCode == rc && e.message == msg && e.caption.None? && e.cause.None?
  {
    WithCaptionAndCause(rc, msg, None, None)
  }

  /** `new OperationException(rc, msg, cause)`: the caption stays null. */
  function WithCause(rc: Long, msg: Option<string>, cause: Option<Cause>): (e: OperationException)
    ensures e.returnCode == rc && e.message == msg && e.caption.None? && e.cause == cause
  {
    OperationException(rc, msg, None, cause)
  }

  /** `new OperationException(rc, msg, caption)`: no cause. */
  function WithCaption(rc: Long, msg: Option<string>, caption: Option<string>): (e: OperationException)
    ensures e.returnCode == rc && e.message == msg && e.caption == caption && e.cause.None?
  {
    WithCaptionAndCause(rc, msg, caption, None)
  }

  /** Throwable.toString: the class name, then ": " and the message when there is one. */
  function ThrowableText(className: string, message: Option<string>): string {
    match message
    case None => className
    case Some(m) => className + ": " + m
  }

  /** OperationException.toString: the decimal return code, a space, the Throwable text. */
  function ToString(e: OperationException): string {
    IntToString(e.returnCode as int) + " " + ThrowableText(CLASS_NAME, e.message)
  }

  /** Reads the return code back from the front of a rendered exception. */
  function ReturnCodeOf(text: string): Option<int> {
    match IndexOfChar(text, ' ')
    case None => None
    case Some(i) => Some(ParseInt(text[..i]))
  }

  /** The text after the first space of a rendered exception. */
  function TextAfterCode(text: string): Option<string> {
    match IndexOfChar(text, ' ')
    case None => None
    case Some(i) => Some(text[i + 1..])
  }

  /** toString is decodable: its head is the return code and its tail the base Throwable text. */
  lemma ToStringDecodes(e: OperationException)
    ensures ReturnCodeOf(ToString(e)) == Some(e.returnCode as int)
    ensures TextAfterCode(ToString(e)) == Some(ThrowableText(CLASS_NAME, e.message))
  {
    var code := IntToString(e.returnCode as int);
    var t := ToString(e);
    IntToStringRoundTrip(e.returnCode as int);
    assert t == code + " " + ThrowableText(CLASS_NAME, e.message);
    assert t[..|code|] == code && t[|code|] == ' ';
    assert IndexOfChar(t, ' ') == Some(|code|);
    assert t[|code| + 1..] == ThrowableText(CLASS_NAME, e.message);
  }

  /** Two exceptions render alike only if they carry the same code and message. */
  lemma ToStringInjective(e1: OperationException, e2: OperationException)
    requires ToString(e1) == ToString(e2)
    ensures e1.returnCode == e2.returnCode && e1.message == e2.message
  {
    ToStringDecodes(e1);
    ToStringDecodes(e2);
    var t1 := ThrowableText(CLASS_NAME, e1.message);
    var t2 := ThrowableText(CLASS_NAME, e2.message);
    assert t1 == t2;
    if e1.message.Some? && e2.message.Some? {
      assert e1.message.value == t1[|CLASS_NAME| + 2..];
      assert e2.message.value == t2[|CLASS_NAME| + 2..];
    }
  }
}

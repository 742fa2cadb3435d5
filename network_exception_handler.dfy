/** The coroutine exception handler used by network calls: it hands the exception to
    the caller's `onException` callback, then shows one of two toast messages chosen
    by the exception's class. */
module NetworkExceptionHandler {
  import opened Jvm

  const UnknownHostException: string := "java.net.UnknownHostException"
  const SocketTimeoutException: string := "java.net.SocketTimeoutException"

  /** The message shown for a host that cannot be resolved or a socket that timed out. */
  const NetworkErrorMessage: string := "发生网络错误，请稍后重试"
  /** The message shown for every other failure. */
  const RequestFailedMessage: string := "请求失败，请重试"

  /** The calls `handleException` makes, in order. */
  datatype HandlerCall = InvokeOnException(e: Throwable) | ShowToastText(text: string)

  /** The exception is, or extends, `UnknownHostException` or `SocketTimeoutException`. */
  predicate IsNetworkFailure(e: Throwable)
  {
    IsInstance(e, UnknownHostException) || IsInstance(e, SocketTimeoutException)
  }

  /** The message chosen for `e`. */
  function MessageFor(e: Throwable): (m: string)
    ensures IsNetworkFailure(e) ==> m == NetworkErrorMessage
    ensures !IsNetworkFailure(e) ==> m == RequestFailedMessage
  {
    if IsInstance(e, UnknownHostException) || IsInstance(e, SocketTimeoutException) then
      NetworkErrorMessage
    else
      RequestFailedMessage
  }

  /** `handleException(context, exception)`: the calls it makes. */
  function HandleException(e: Throwable): (r: seq<HandlerCall>)
    ensures |r| == 2 && r[0] == InvokeOnException(e) && r[1].ShowToastText?
    ensures r[1].text == NetworkErrorMessage || r[1].text == RequestFailedMessage
  {
    [InvokeOnException(e)] + [ShowToastText(MessageFor(e))]
  }

  /** The two messages are distinct, so the classification can be read off the toast. */
  lemma MessagesDiffer()
    ensures NetworkErrorMessage != RequestFailedMessage
  {
    assert NetworkErrorMessage[0] != RequestFailedMessage[0];
  }

  /** `onException` gets the exception first; exactly one toast follows, and it is the
      network-error message exactly when the exception is a network failure, subclasses
      included. */
  lemma HandleExceptionCalls(e: Throwable)
    ensures |HandleException(e)| == 2
    ensures HandleException(e)[0] == InvokeOnException(e)
    ensures HandleException(e)[1].ShowToastText?
    ensures HandleException(e)[1].text == NetworkErrorMessage <==> IsNetworkFailure(e)
    ensures forall i :: 1 <= i < |HandleException(e)| ==> HandleException(e)[i].ShowToastText?
  {
    MessagesDiffer();
  }

  /** A subclass of `SocketTimeoutException` is classified as a network failure. */
  lemma SubclassIsNetworkFailure(name: string, supers: set<string>)
    requires SocketTimeoutException in supers
    ensures HandleException(Throwable(name, supers))[1] == ShowToastText(NetworkErrorMessage)
  {
  }
}

/** `Flow.commonCatch`: the catch stage for network flows. It shows one of two toast
    messages chosen by the cause's class, then runs the caller's `action` with the
    same cause. */
module NetworkExt {
  import opened Jvm
  import NetworkExceptionHandler

  const UnknownHostException: string := "java.net.UnknownHostException"
  const SocketTimeoutException: string := "java.net.SocketTimeoutException"
  const NetworkErrorMessage: string := "发生网络错误，请稍后重试"
  const RequestFailedMessage: string := "请求失败，请重试"

  /** The calls the catch block makes, in order. */
  datatype CatchCall = ShowToastText(text: string) | InvokeAction(cause: Throwable)

  /** The calls `commonCatch(action)` makes when the upstream flow fails with `cause`. */
  function CommonCatch(cause: Throwable): (r: seq<CatchCall>)
    ensures |r| == 2 && r[0].ShowToastText? && r[1] == InvokeAction(cause)
    ensures r[0].text == NetworkErrorMessage || r[0].text == RequestFailedMessage
  {
    var message :=
      if IsInstance(cause, UnknownHostException) || IsInstance(cause, SocketTimeoutException) then
        NetworkErrorMessage
      else
        RequestFailedMessage;
    [ShowToastText(message), InvokeAction(cause)]
  }

  /** Exactly one toast, then `action` with the same cause; the toast is the network
      message for an unknown host or a timeout and the generic one otherwise. */
  lemma CommonCatchCalls(cause: Throwable)
    ensures |CommonCatch(cause)| == 2
    ensures CommonCatch(cause)[1] == InvokeAction(cause)
    ensures CommonCatch(cause)[0].ShowToastText?
    ensures NetworkExceptionHandler.IsNetworkFailure(cause) ==> CommonCatch(cause)[0].text == NetworkErrorMessage
    ensures !NetworkExceptionHandler.IsNetworkFailure(cause) ==> CommonCatch(cause)[0].text == RequestFailedMessage
  {
  }

  /** The catch stage and the coroutine exception handler show the same message for
      every throwable. */
  lemma SameClassificationAsHandler(cause: Throwable)
    ensures CommonCatch(cause)[0].text == NetworkExceptionHandler.HandleException(cause)[1].text
    ensures NetworkErrorMessage == NetworkExceptionHandler.NetworkErrorMessage
    ensures RequestFailedMessage == NetworkExceptionHandler.RequestFailedMessage
  {
  }
}

/** What a page shows the user after an action: a toast notification and,
    for some handlers, a navigation target. */
module Feedback {

  /** A `sonner` toast, or none at all. */
  datatype Toast = NoToast | SuccessToast(text: string) | ErrorToast(text: string)

  /** The handlers' `error.message || '<fallback>'`: JavaScript's `||` replaces
      the empty string, and only the empty string, by the fallback. */
  function OrElse(message: string, fallback: string): (r: string)
    ensures message != [] ==> r == message
    ensures message == [] ==> r == fallback
    ensures fallback != [] ==> r != []
  {
    if message == [] then fallback else message
  }
}

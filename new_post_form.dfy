/**
 * The submit logic of the `NewPostForm` component
 * (front/components/NewPostForm.tsx): the guard that keeps blank or
 * over-long posts from being sent, the state updates of `handleSubmit`, the
 * remaining-character counter and the submit button's disabled state. The
 * answer of `postService.createPost` is an input.
 */
module NewPostForm {
  import opened Wrappers
  import JsText
  import opened Json
  import FrontPostController

  /** `maxLength`, in UTF-16 code units as `content.length` counts them. */
  const MaxLength: nat := 280

  const CreateFallback := "Error al crear el post"
  const ConnectionError := "Error de conexión"

  /** What `postService.createPost` gave: an answer `{success, error}`, or a thrown error. */
  datatype SubmitResult = Answered(success: bool, error: Option<string>) | ConnectionFailed

  /** The guard of `handleSubmit`: the trimmed content is empty or the content is over the limit. */
  predicate Rejects(content: string) {
    JsText.Trim(content) == [] || JsText.JsLength(content) > MaxLength
  }

  /** `remainingChars`: how many code units may still be typed; negative once over the limit. */
  function RemainingChars(content: string): (n: int)
    ensures n + JsText.JsLength(content) == MaxLength
    ensures n < 0 <==> JsText.JsLength(content) > MaxLength
  {
    MaxLength - JsText.JsLength(content)
  }

  /** The submit button's `disabled`. */
  predicate SubmitDisabled(isSubmitting: bool, content: string)
    ensures SubmitDisabled(isSubmitting, content) <==> isSubmitting || Rejects(content)
  {
    isSubmitting || JsText.Trim(content) == [] || JsText.JsLength(content) > MaxLength
  }

  /** `result.error || 'Error al crear el post'`. */
  function FailureText(error: Option<string>): (text: string)
    ensures text != []
    ensures error.Some? && error.value != [] ==> text == error.value
  {
    if error.Some? then JsText.OrElse(error.value, CreateFallback) else CreateFallback
  }

  /**
   * Whatever the guard lets through, once trimmed, passes the Next.js
   * server's schema (1 to 280 code units): trimming removes the blank case
   * and never lengthens.
   */
  lemma SentContentPassesSchema(content: string)
    requires !Rejects(content)
    ensures FrontPostController.CreateSchema(Text(JsText.Trim(content))) == Some(JsText.Trim(content))
  {
    assert JsText.JsLength(JsText.Trim(content)) != 0;
  }

  /**
   * An enabled button means a submission goes out, with content the server
   * accepts; a counter that has gone negative always disables the button.
   */
  lemma EnabledButtonSends(isSubmitting: bool, content: string)
    ensures !SubmitDisabled(isSubmitting, content) ==>
      !Rejects(content) && FrontPostController.CreateSchema(Text(JsText.Trim(content))).Some?
    ensures RemainingChars(content) < 0 ==> SubmitDisabled(isSubmitting, content)
  {
    if !SubmitDisabled(isSubmitting, content) {
      SentContentPassesSchema(content);
    }
  }

  class Form {
    /** Whether the parent passed `onPostCreated`. */
    const hasCallback: bool
    var isSubmitting: bool
    var error: string
    var content: string
    var isFocused: bool
    /** The contents handed to `postService.createPost`, oldest first. */
    var sent: seq<string>
    /** How many times `onPostCreated` has been called. */
    var notified: nat

    /** The form as first rendered: empty, idle, nothing sent. */
    constructor (hasCallback: bool)
      ensures this.hasCallback == hasCallback
      ensures !isSubmitting && error == [] && content == [] && !isFocused && sent == [] && notified == 0
    {
      this.hasCallback := hasCallback;
      isSubmitting := false;
      error := [];
      content := [];
      isFocused := false;
      sent := [];
      notified := 0;
    }

    /**
     * `handleSubmit`: nothing happens when the guard rejects the content;
     * otherwise the trimmed content is sent, the error cleared, and then on
     * success the content is emptied, focus dropped and `onPostCreated`
     * called; on a failed answer its error (or the fallback) is shown and the
     * content kept; on a thrown error 'Error de conexión' is shown. In every
     * case the form is no longer submitting afterwards.
     */
    method HandleSubmit(result: SubmitResult)
      modifies this
      ensures Rejects(old(content)) ==>
        && isSubmitting == old(isSubmitting) && error == old(error) && content == old(content)
        && isFocused == old(isFocused) && sent == old(sent) && notified == old(notified)
      ensures !Rejects(old(content)) ==>
        && !isSubmitting
        && sent == old(sent) + [JsText.Trim(old(content))]
        && FrontPostController.CreateSchema(Text(sent[|sent| - 1])).Some?
      ensures !Rejects(old(content)) && result.Answered? && result.success ==>
        && content == [] && !isFocused && error == []
        && notified == old(notified) + (if hasCallback then 1 else 0)
      ensures !Rejects(old(content)) && result.Answered? && !result.success ==>
        && content == old(content) && isFocused == old(isFocused) && notified == old(notified)
        && error == FailureText(result.error)
      ensures !Rejects(old(content)) && result.ConnectionFailed? ==>
        && content == old(content) && isFocused == old(isFocused) && notified == old(notified)
        && error == ConnectionError
    {
      if JsText.Trim(content) == [] || JsText.JsLength(content) > MaxLength {
        return;
      }
      isSubmitting := true;
      error := [];
      SentContentPassesSchema(content);
      sent := sent + [JsText.Trim(content)];
      match result {
        case Answered(success, message) =>
          if success {
            content := [];
            isFocused := false;
            if hasCallback {
              notified := notified + 1;
            }
          } else {
            error := FailureText(message);
          }
        case ConnectionFailed =>
          error := ConnectionError;
      }
      // `finally`
      isSubmitting := false;
    }
  }
}

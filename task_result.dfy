/** The outcome the task reports to the pipeline agent through `tl.setResult`. */
module TaskStatus {
  import opened JsText

  /**
   * The task result of one run. Every `setResult(Failed, message)` appends its message;
   * nothing ever removes one, so once failed the task stays failed.
   */
  class TaskResult {
    var failures: seq<Field>

    constructor ()
      ensures failures == []
    {
      failures := [];
    }

    /** Whether some call has marked the task Failed. */
    predicate Failed()
      reads this
    {
      failures != []
    }

    /** `tl.setResult(tl.TaskResult.Failed, message)` */
    method SetFailed(message: Field)
      modifies this
      ensures failures == old(failures) + [message]
      ensures Failed()
    {
      failures := failures + [message];
    }
  }
}

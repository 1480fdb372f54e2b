/**
 When an earlier attempt of a review run leaves a retry safe, said of the jobs and steps
 of its inventory alone.
 */
module RetryEvidence {
  import opened Options
  import opened Sequences
  import opened ReviewGuard

  /** The one step of this name. */
  ghost predicate StepIs(steps: seq<WorkflowStep>, name: string, k: int) {
    OnlyAt(steps, (step: WorkflowStep) => step.name == name, k)
  }

  /** The provider was called: its step ran to its end and was not skipped. */
  ghost predicate ProviderCalled(steps: seq<WorkflowStep>) {
    exists k :: StepIs(steps, "Call Gemini reviewer", k)
                && steps[k].status == "completed" && steps[k].conclusion != "skipped"
  }

  /** The evidence of the call was uploaded. */
  ghost predicate EvidenceUploaded(steps: seq<WorkflowStep>) {
    exists k :: StepIs(steps, "Upload immutable Gemini review evidence", k)
                && steps[k].status == "completed" && steps[k].conclusion == "success"
  }

  ghost predicate ListedAtMostOnce<T>(s: seq<T>, p: T -> bool) {
    NoneIs(s, p) || exists k :: OnlyAt(s, p, k)
  }

  lemma AtMostOneLeft<T>(s: seq<T>, p: T -> bool)
    ensures |Filter(s, p)| <= 1 <==> ListedAtMostOnce(s, p)
  {
    FilterNone(s, p);
    FilterOne(s, p);
  }

  /** Neither step is listed twice, and where the provider was called the evidence was uploaded. */
  ghost predicate StepsSafe(steps: seq<WorkflowStep>) {
    && ListedAtMostOnce(steps, (step: WorkflowStep) => step.name == "Call Gemini reviewer")
    && ListedAtMostOnce(steps, (step: WorkflowStep) => step.name == "Upload immutable Gemini review evidence")
    && (ProviderCalled(steps) ==> EvidenceUploaded(steps))
  }

  lemma StepsRetryable(steps: seq<WorkflowStep>)
    ensures RetryableSteps(steps) <==> StepsSafe(steps)
  {
    var called, uploaded := (step: WorkflowStep) => step.name == "Call Gemini reviewer",
                            (step: WorkflowStep) => step.name == "Upload immutable Gemini review evidence";
    FilterNone(steps, called);
    FilterNone(steps, uploaded);
    AtMostOneLeft(steps, called);
    AtMostOneLeft(steps, uploaded);
    FilterOne(steps, called);
    FilterOne(steps, uploaded);
  }

  ghost predicate ReviewJobAt(jobs: seq<Job>, k: int) {
    OnlyAt(jobs, (job: Job) => job.name == "Trusted Gemini semantic review", k)
  }

  /**
   An attempt is retryable exactly when its inventory is well formed, lists the review job at
   most once, and that job's steps, if it has any, are safe: a provider that was called has its
   evidence uploaded, and one that was skipped, or never finished, needs none.
   */
  lemma RetryableExactlyWhen(inventory: Option<seq<Job>>)
    ensures RetryableJobs(inventory) <==>
            && inventory.Some?
            && ListedAtMostOnce(inventory.value, (job: Job) => job.name == "Trusted Gemini semantic review")
            && forall k :: ReviewJobAt(inventory.value, k) && inventory.value[k].steps.Some? ==>
                 StepsSafe(inventory.value[k].steps.value)
  {
    if inventory.Some? {
      var jobs, isReview := inventory.value, (job: Job) => job.name == "Trusted Gemini semantic review";
      FilterNone(jobs, isReview);
      AtMostOneLeft(jobs, isReview);
      FilterOne(jobs, isReview);
      forall k | OnlyAt(jobs, isReview, k) && jobs[k].steps.Some?
        ensures RetryableSteps(jobs[k].steps.value) <==> StepsSafe(jobs[k].steps.value)
      {
        StepsRetryable(jobs[k].steps.value);
      }
    }
  }
}

/** The life of one job: the moves an operation can make on it, what they keep, and why they run out. */
module Lifecycle {
  import opened Text
  import opened Jobs
  import Cdip

  /** The accounting every stored job satisfies. */
  predicate Sound(j: Job) {
    && j.maxAttempts >= 1
    && 0 <= j.attempts <= j.maxAttempts
    && (j.IsWaiting() ==> j.attempts < j.maxAttempts)
    && (j.status == Queued && j.assignedTo != "" ==> j.attempts == 0)
    && (j.IsActive() ==> j.attempts >= 1 && j.assignedTo != "")
  }

  /** What no operation ever changes. */
  predicate SameIdentity(j: Job, j': Job) {
    && j'.id == j.id && j'.kind == j.kind && j'.requestedBy == j.requestedBy
    && j'.input == j.input && j'.requirements == j.requirements && j'.maxAttempts == j.maxAttempts
    && j'.cdipParent == j.cdipParent && j'.cdipIndex == j.cdipIndex && j'.createdAt == j.createdAt
  }

  /** One operation makes one of these moves on each job. */
  datatype Move =
    | Stay
    | Dispatch      // from the queue to a worker
    | Redispatch    // from one worker to another, or back through the queue, in one operation
    | Requeue       // back to the queue
    | GiveUp        // out of attempts
    | Start         // handed to its worker
    | Succeed
    | CancelNow
    | Stage(next: Cdip.StageState)
    | Close

  predicate Makes(m: Move, j: Job, j': Job) {
    && SameIdentity(j, j')
    && (m.Stage? || j'.cdipState == j.cdipState)
    && match m
       case Stay => j'.status == j.status && j'.assignedTo == j.assignedTo && j'.attempts == j.attempts
       case Dispatch =>
         j.IsWaiting() && j'.status == Scheduled && j'.assignedTo != "" && j'.attempts == j.attempts + 1
       case Redispatch =>
         && j.IsActive() && j.attempts < j.maxAttempts
         && j'.status == Scheduled && j'.assignedTo != "" && j'.attempts == j.attempts + 1
         && (j.status == Scheduled ==> j'.assignedTo != j.assignedTo)
       case Requeue =>
         j.IsActive() && j.attempts < j.maxAttempts && j'.IsWaiting() && j'.attempts == j.attempts
       case GiveUp =>
         && j.IsActive() && j.attempts >= j.maxAttempts
         && j'.status == Failed && j'.assignedTo == j.assignedTo && j'.attempts == j.attempts
       case Start =>
         j.status == Scheduled && j'.status == Running && j'.assignedTo == j.assignedTo && j'.attempts == j.attempts
       case Succeed =>
         j.status == Running && j'.status == Succeeded && j'.assignedTo == j.assignedTo && j'.attempts == j.attempts
       case CancelNow =>
         !j.IsTerminal() && j'.status == Canceled && j'.assignedTo == j.assignedTo && j'.attempts == j.attempts
       case Stage(next) =>
         && j.kind == JOB_STAGE && Cdip.CanTransition(Cdip.Current(j.cdipState), next) && j'.cdipState == next
         && j'.assignedTo == j.assignedTo
         && (match next
             case Completed => j'.status == Succeeded && j'.attempts == j.attempts
             case Failed => j'.status == Jobs.Failed && j'.attempts == j.attempts
             case Aborted => j'.status == Canceled && j'.attempts == j.attempts
             case Preparing =>
               if j.status == Queued && !Blank(j.assignedTo)
               then j'.status == Scheduled && j'.attempts == if j.attempts == 0 then 1 else j.attempts
               else j'.status == j.status && j'.attempts == j.attempts
             case _ => j'.status == j.status && j'.attempts == j.attempts)
       case Close =>
         && j.kind == JOB_DISTRIBUTED && j'.status in {Succeeded, Failed}
         && j'.assignedTo == j.assignedTo && j'.attempts == j.attempts
  }

  ghost predicate Moves(j: Job, j': Job) {
    exists m :: Makes(m, j, j')
  }

  /** The job was handed to a worker between `j` and `j'`. */
  predicate Dispatched(j: Job, j': Job) {
    j'.status == Scheduled && (j.status != Scheduled || j'.assignedTo != j.assignedTo)
  }

  predicate Changed(j: Job, j': Job) {
    j'.status != j.status || j'.assignedTo != j.assignedTo
  }

  function Rank(status: Status): nat {
    match status
    case Scheduled => 3
    case Running => 2
    case Queued => 1
    case _ => 0
  }

  /** How many changes a job can still make before it is terminal. */
  function Fuel(j: Job): int {
    3 * (j.maxAttempts - j.attempts) + Rank(j.status)
  }

  /** One move keeps the accounting, counts one attempt exactly when it dispatches, and burns fuel
      whenever it changes a live job; a terminal job is never revived or dispatched again. */
  lemma MoveFacts(m: Move, j: Job, j': Job)
    requires Makes(m, j, j') && Sound(j)
    ensures Sound(j')
    ensures j'.attempts == j.attempts + if Dispatched(j, j') then 1 else 0
    ensures Changed(j, j') && !j.IsTerminal() ==> Fuel(j') < Fuel(j)
    ensures !Changed(j, j') ==> Fuel(j') == Fuel(j)
    ensures j.IsTerminal() ==> j'.IsTerminal()
    ensures Fuel(j') <= Fuel(j)
  {
    match m
    case Stage(next) =>
      if next.Preparing? && j.status == Queued && !Blank(j.assignedTo) {
        BlankEmpty();
      }
    case _ =>
  }

  lemma BlankEmpty()
    ensures Blank("")
  {
  }

  /** A queued job that is already scheduled again by the end of the same operation went from one
      worker to the next; a terminal or active one is left alone by the queue. */
  lemma MoveThenQueue(m: Move, j: Job, mid: Job, m': Move, j': Job)
    requires Makes(m, j, mid) && Makes(m', mid, j') && m' in {Stay, Dispatch}
    requires m in {Stay, Requeue, Redispatch, GiveUp, Succeed, CancelNow}
    requires m == Requeue ==> j.status == Running
    ensures Moves(j, j')
  {
    if m' == Stay {
      assert Makes(m, j, j');
    } else if m == Stay {
      assert Makes(Dispatch, j, j');
    } else {
      assert m == Requeue && Makes(Redispatch, j, j');
    }
  }

  // ----- stage jobs pinned to their worker -----

  /** A stage job as the distributed planner creates it: one attempt, bound to the worker `w`. */
  predicate PinnedTo(j: Job, w: string) {
    j.kind == JOB_STAGE && j.maxAttempts == 1 && j.assignedTo == w && !Blank(w)
  }

  /** The CDIP end states and the job statuses that go with them. */
  predicate EndsAgree(j: Job) {
    && (j.cdipState == Cdip.Completed ==> j.status == Succeeded)
    && (j.cdipState == Cdip.Failed ==> j.status == Failed)
    && (j.cdipState == Cdip.Aborted ==> j.status == Canceled)
  }

  /** No move breaks the agreement on a stage job. */
  lemma EndsStayAgreed(m: Move, j: Job, j': Job)
    requires Makes(m, j, j') && j.kind == JOB_STAGE && EndsAgree(j)
    ensures EndsAgree(j')
  {
  }

  /** Every move leaves a pinned stage job on its worker, moves its CDIP state only along an allowed
      transition, and keeps its CDIP end state in agreement with its status. */
  lemma PinnedMove(m: Move, j: Job, j': Job, w: string)
    requires Makes(m, j, j') && Sound(j) && PinnedTo(j, w) && EndsAgree(j)
    ensures PinnedTo(j', w) && EndsAgree(j')
    ensures j'.cdipState == j.cdipState || Cdip.CanTransition(Cdip.Current(j.cdipState), j'.cdipState)
  {
    BlankEmpty();
  }
}

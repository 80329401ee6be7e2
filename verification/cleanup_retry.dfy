/** The per-file delete loop of the retention pass: at most three attempts,
    each opening the file read-write (to see whether another process still
    holds it), removing it and checking it is gone. What the filesystem
    answers on each attempt is an input. */
module CleanupRetry {
  import opened Wrappers

  const MaxRetries: nat := 3

  datatype OpenResult =
    | Opened                    // the open succeeded (and the handle was closed)
    | OpenNotExist              // the open failed because the file no longer exists
    | OpenFailed(err: string)   // any other open error: taken as "still in use"

  datatype RemoveResult = Removed | RemoveFailed(err: string)

  /** The follow-up stat: "does not exist", or anything else (success or
      another error). */
  datatype StatResult = StatNotExist | StatOther

  /** The filesystem's answers during one attempt. `remove` is consulted only
      after a successful open, `statAfter` only after a successful remove. */
  datatype Attempt = Attempt(open: OpenResult, remove: RemoveResult, statAfter: StatResult)

  /** The attempt ends the loop: the file was already gone, or it was removed
      and the stat confirms it. */
  predicate Confirms(a: Attempt) {
    a.open.OpenNotExist? || (a.open.Opened? && a.remove.Removed? && a.statAfter.StatNotExist?)
  }

  /** The attempt is followed by the retry interval's sleep: the open failed
      for another reason than absence, or the remove failed. */
  predicate SleepsAfter(a: Attempt) {
    a.open.OpenFailed? || (a.open.Opened? && a.remove.RemoveFailed?)
  }

  /** The attempt records a remove error. */
  predicate RemoveFailedIn(a: Attempt) {
    a.open.Opened? && a.remove.RemoveFailed?
  }

  /** Number of the first n attempts that end in a sleep. */
  function SleepsIn(attempt: nat -> Attempt, n: nat): nat {
    if n == 0 then 0 else SleepsIn(attempt, n - 1) + (if SleepsAfter(attempt(n - 1)) then 1 else 0)
  }

  /** The error of the last failed remove among the first n attempts. */
  function LastRemoveError(attempt: nat -> Attempt, n: nat): Option<string> {
    if n == 0 then None
    else if RemoveFailedIn(attempt(n - 1)) then Some(attempt(n - 1).remove.err)
    else LastRemoveError(attempt, n - 1)
  }

  /** What one file's delete loop did: how many attempts and sleeps it took,
      whether the file was confirmed gone, the remembered remove error, and
      whether the final warning was printed. */
  datatype DeleteOutcome = DeleteOutcome(attempts: nat, sleeps: nat, gone: bool, deleteErr: Option<string>, warned: bool)

  /** The outcome the loop must produce for the given answers: it stops at the
      first confirming attempt, or after MaxRetries; it slept once per
      sleeping attempt; its error is that of the last failed remove unless the
      file is confirmed gone; it warns exactly when an error remains. */
  ghost predicate IsDeleteOutcome(attempt: nat -> Attempt, d: DeleteOutcome) {
    && 1 <= d.attempts <= MaxRetries
    && (forall k :: 0 <= k < d.attempts - 1 ==> !Confirms(attempt(k)))
    && (d.gone <==> Confirms(attempt(d.attempts - 1)))
    && (!d.gone ==> d.attempts == MaxRetries)
    && d.sleeps == SleepsIn(attempt, d.attempts)
    && d.deleteErr == (if d.gone then None else LastRemoveError(attempt, d.attempts))
    && (d.warned <==> d.deleteErr.Some?)
  }

  /** Tries to delete one file. */
  method DeleteWithRetry(attempt: nat -> Attempt) returns (d: DeleteOutcome)
    ensures IsDeleteOutcome(attempt, d)
    ensures d.gone <==> exists k :: 0 <= k < MaxRetries && Confirms(attempt(k))
    ensures d.sleeps <= d.attempts <= MaxRetries
  {
    var deleteErr: Option<string> := None;
    var sleeps := 0;
    var gone := false;
    var retry := 0;
    while retry < MaxRetries
      invariant 0 <= retry <= MaxRetries
      invariant forall k :: 0 <= k < retry ==> !Confirms(attempt(k))
      invariant sleeps == SleepsIn(attempt, retry)
      invariant sleeps <= retry
      invariant deleteErr == LastRemoveError(attempt, retry)
    {
      var a := attempt(retry);
      match a.open {
        case OpenNotExist =>
          deleteErr := None;
          gone := true;
          break;
        case OpenFailed(_) =>
          sleeps := sleeps + 1;
        case Opened =>
          match a.remove {
            case RemoveFailed(err) =>
              deleteErr := Some(err);
              sleeps := sleeps + 1;
            case Removed =>
              if a.statAfter.StatNotExist? {
                deleteErr := None;
                gone := true;
                break;
              }
          }
      }
      retry := retry + 1;
    }
    var attempts := if gone then retry + 1 else retry;
    d := DeleteOutcome(attempts, sleeps, gone, deleteErr, deleteErr.Some?);
  }

  /** An error is only ever remembered from a failed remove: when no attempt
      got as far as a failing remove (for instance every open failed), no
      warning is printed. */
  lemma {:induction false} NoRemoveFailureNoWarning(attempt: nat -> Attempt, d: DeleteOutcome)
    requires IsDeleteOutcome(attempt, d)
    requires forall k :: 0 <= k < MaxRetries ==> !RemoveFailedIn(attempt(k))
    ensures !d.warned
  {
    NoRemoveFailureNoError(attempt, d.attempts);
  }

  lemma {:induction false} NoRemoveFailureNoError(attempt: nat -> Attempt, n: nat)
    requires forall k :: 0 <= k < n ==> !RemoveFailedIn(attempt(k))
    ensures LastRemoveError(attempt, n) == None
  {
    if n > 0 {
      NoRemoveFailureNoError(attempt, n - 1);
    }
  }

  /** A file that stays locked (every open fails) costs exactly MaxRetries
      attempts and MaxRetries sleeps, stays in place, and is not warned about. */
  lemma LockedFileOutcome(attempt: nat -> Attempt, d: DeleteOutcome)
    requires IsDeleteOutcome(attempt, d)
    requires forall k :: 0 <= k < MaxRetries ==> attempt(k).open.OpenFailed?
    ensures d.attempts == MaxRetries && d.sleeps == MaxRetries
    ensures !d.gone && !d.warned
  {
    NoRemoveFailureNoWarning(attempt, d);
  }

  /** A file whose remove keeps failing stays in place, after MaxRetries
      attempts and sleeps, and the warning carries the last remove error. */
  lemma UndeletableFileOutcome(attempt: nat -> Attempt, d: DeleteOutcome)
    requires IsDeleteOutcome(attempt, d)
    requires forall k :: 0 <= k < MaxRetries ==> RemoveFailedIn(attempt(k))
    ensures d.attempts == MaxRetries && d.sleeps == MaxRetries
    ensures !d.gone && d.warned
    ensures d.deleteErr == Some(attempt(MaxRetries - 1).remove.err)
  {
  }
}

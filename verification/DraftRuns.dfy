/**
 * Where the submitted draft is, told from the steps alone: what was shown in which order, and what the answer was.
 */
module DraftRuns {
  import opened Options
  import opened Drafts
  import opened Submission
  import opened DraftPlaces

  /** The last key shown by the first `n` steps, if any was, is the new task. */
  ghost predicate NewTaskShown(steps: seq<Step>, n: nat)
    requires n <= |steps|
  {
    forall j: nat | LastShown(steps, n, j) :: steps[j].key == NEW_TASK
  }

  ghost predicate LastShown(steps: seq<Step>, n: nat, j: nat)
    requires n <= |steps|
  {
    j < n && steps[j].Render? && forall k | j < k < n :: !steps[k].Render?
  }

  /** A session is shown directly after the new task. */
  ghost predicate OpensAt(steps: seq<Step>, i: nat, key: string)
    requires i < |steps|
  {
    steps[i] == Render(key) && key != NEW_TASK && NewTaskShown(steps, i)
  }

  ghost predicate AnsweredBefore(steps: seq<Step>, n: nat, accepted: bool)
    requires n <= |steps|
  {
    exists j :: 0 <= j < n && steps[j] == Acknowledge(accepted)
  }

  /** The session that was opened last is this one. */
  ghost predicate OpenedLast(steps: seq<Step>, n: nat, key: string)
    requires n <= |steps|
  {
    exists i: nat :: i < n && OpensAt(steps, i, key) && NoneOpensAfter(steps, i, n)
  }

  ghost predicate NoneOpensAfter(steps: seq<Step>, i: nat, n: nat)
    requires n <= |steps|
  {
    forall j: nat, k | i < j < n :: !OpensAt(steps, j, k)
  }

  ghost predicate NoneOpens(steps: seq<Step>) {
    forall j: nat, k | j < |steps| :: !OpensAt(steps, j, k)
  }

  /** The answer accepts while the session is the last one opened, or the session is opened after such an answer. */
  ghost predicate DropsAt(steps: seq<Step>, i: nat, key: string)
    requires i < |steps|
  {
    || (steps[i] == Acknowledge(true) && OpenedLast(steps, i, key))
    || (OpensAt(steps, i, key) && AnsweredBefore(steps, i, true))
  }

  // ---------------------------------------------------------------- what the view remembers

  lemma ShownNext(steps: seq<Step>, n: nat)
    requires n < |steps|
    ensures NewTaskShown(steps, n + 1)
            <==> if steps[n].Render? then steps[n].key == NEW_TASK else NewTaskShown(steps, n)
  {
    var next := n + 1;
    if steps[n].Render? {
      assert LastShown(steps, next, n);
    } else {
      assert forall j: nat :: LastShown(steps, next, j) <==> LastShown(steps, n, j);
    }
  }

  lemma {:induction false} ShownIs(store: Store, views: seq<View>, steps: seq<Step>, n: nat)
    requires FromSubmit(store, views, steps) && n <= |steps|
    ensures views[n].previousKey == NEW_TASK <==> NewTaskShown(steps, n)
    ensures views[n].submission.key == NEW_TASK
    decreases n
  {
    if n > 0 {
      ShownIs(store, views, steps, n - 1);
      ShownNext(steps, n - 1);
      assert views[n - 1 + 1] == Next(views[n - 1], steps[n - 1]);
    }
  }

  /** A step opens a session if and only if it shows one when the key shown before is the new task. */
  lemma OpensIff(store: Store, views: seq<View>, steps: seq<Step>, i: nat, key: string)
    requires FromSubmit(store, views, steps) && i < |steps|
    ensures Opens(views[i], steps[i], key) <==> OpensAt(steps, i, key)
  {
    ShownIs(store, views, steps, i);
  }

  lemma LastNext(steps: seq<Step>, n: nat, key: string)
    requires n < |steps|
    ensures OpenedLast(steps, n + 1, key)
            <==> OpensAt(steps, n, key) || (OpenedLast(steps, n, key) && forall k :: !OpensAt(steps, n, k))
  {
    var next := n + 1;
    if OpensAt(steps, n, key) {
      assert NoneOpensAfter(steps, n, next);
    } else {
      forall i: nat | i < n
        ensures NoneOpensAfter(steps, i, next) <==> NoneOpensAfter(steps, i, n) && forall k :: !OpensAt(steps, n, k)
      {
      }
    }
  }

  lemma {:induction false} MigratedIs(store: Store, views: seq<View>, steps: seq<Step>, n: nat, key: string)
    requires FromSubmit(store, views, steps) && n <= |steps|
    ensures views[n].migrated == Some(key) <==> OpenedLast(steps, n, key)
    decreases n
  {
    if n > 0 {
      var m := n - 1;
      MigratedIs(store, views, steps, m, key);
      LastNext(steps, m, key);
      assert views[m + 1] == Next(views[m], steps[m]);
      forall k ensures Opens(views[m], steps[m], k) <==> OpensAt(steps, m, k) {
        OpensIff(store, views, steps, m, k);
      }
      MigratedNext(views[m], steps[m], key);
    }
  }

  lemma MigratedNext(v: View, step: Step, key: string)
    requires Submission.Enabled(v, step)
    ensures Next(v, step).migrated == Some(key)
            <==> Opens(v, step, key) || (v.migrated == Some(key) && forall k :: !Opens(v, step, k))
  {
    if step.Render? {
      assert Leaves(v, step.key) <==> Opens(v, step, step.key);
    }
  }

  lemma {:induction false} AcceptedIs(store: Store, views: seq<View>, steps: seq<Step>, n: nat, accepted: bool)
    requires FromSubmit(store, views, steps) && n <= |steps|
    ensures views[n].submission.accepted == Some(accepted) <==> AnsweredBefore(steps, n, accepted)
    decreases n
  {
    if n > 0 {
      var m := n - 1;
      AcceptedIs(store, views, steps, m, accepted);
      assert views[m + 1] == Next(views[m], steps[m]);
      assert AnsweredBefore(steps, n, accepted)
             <==> AnsweredBefore(steps, m, accepted) || steps[m] == Acknowledge(accepted);
    }
  }

  lemma DropsIff(store: Store, views: seq<View>, steps: seq<Step>, i: nat, key: string)
    requires FromSubmit(store, views, steps) && i < |steps|
    ensures Drops(views[i], steps[i], key) <==> DropsAt(steps, i, key)
  {
    OpensIff(store, views, steps, i, key);
    MigratedIs(store, views, steps, i, key);
    AcceptedIs(store, views, steps, i, true);
  }

  // ---------------------------------------------------------------- which runs there are

  lemma {:induction false} SeenIs(store: Store, views: seq<View>, steps: seq<Step>, n: nat, key: string)
    requires FromSubmit(store, views, steps) && n <= |steps|
    ensures key in views[n].seen <==> key == NEW_TASK || exists j :: 0 <= j < n && steps[j] == Render(key)
    decreases n
  {
    if n > 0 {
      SeenIs(store, views, steps, n - 1, key);
      assert views[n - 1 + 1] == Next(views[n - 1], steps[n - 1]);
      assert (exists j :: 0 <= j < n && steps[j] == Render(key))
             <==> (exists j :: 0 <= j < n - 1 && steps[j] == Render(key)) || steps[n - 1] == Render(key);
    }
  }

  /**
   * Every run can go on with any key shown, with an edit of any key shown so far, and with any answer if there was
   * none.
   */
  lemma EnabledIff(store: Store, views: seq<View>, steps: seq<Step>, step: Step)
    requires FromSubmit(store, views, steps)
    ensures Submission.Enabled(views[|steps|], step)
            <==> match step
                 case Edit(key, _) => key == NEW_TASK || exists j :: 0 <= j < |steps| && steps[j] == Render(key)
                 case Render(_) => true
                 case Acknowledge(_) => forall j | 0 <= j < |steps| :: !steps[j].Acknowledge?
  {
    RunPlaces(store, views, steps, |steps|, NEW_TASK);
    Answers(store, views, steps);
    if step.Edit? {
      SeenIs(store, views, steps, |steps|, step.key);
    }
  }

  // ---------------------------------------------------------------- the place of the draft

  lemma OpenedIff(store: Store, views: seq<View>, steps: seq<Step>, key: string)
    requires FromSubmit(store, views, steps)
    ensures Opened(views, steps, |steps|, key) <==> exists i: nat :: i < |steps| && OpensAt(steps, i, key)
  {
    forall i: nat | i < |steps| ensures Opens(views[i], steps[i], key) <==> OpensAt(steps, i, key) {
      OpensIff(store, views, steps, i, key);
    }
  }

  lemma DroppedIff(store: Store, views: seq<View>, steps: seq<Step>, key: string)
    requires FromSubmit(store, views, steps)
    ensures Dropped(views, steps, |steps|, key) <==> exists i: nat :: i < |steps| && DropsAt(steps, i, key)
  {
    forall i: nat | i < |steps| ensures Drops(views[i], steps[i], key) <==> DropsAt(steps, i, key) {
      DropsIff(store, views, steps, i, key);
    }
  }

  /**
   * A session that nobody writes in holds the submitted draft after a run if and only if it held it before, or had no
   * draft and was opened from the new task; and it was neither opened after the send was accepted nor the last one
   * opened when that answer came.
   */
  lemma SessionHoldsIff(store: Store, views: seq<View>, steps: seq<Step>, key: string)
    requires FromSubmit(store, views, steps) && !EditsTo(steps, |steps|, key) && key != NEW_TASK
    ensures Holds(views[|steps|], key)
            <==> (HeldBefore(store, key)
                  || (key !in store.drafts && exists i: nat :: i < |steps| && OpensAt(steps, i, key)))
                 && !exists i: nat :: i < |steps| && DropsAt(steps, i, key)
  {
    DraftIsWhere(store, views, steps, key);
    UneditedStays(store, views, steps, |steps|, key);
    OpenedIff(store, views, steps, key);
    DroppedIff(store, views, steps, key);
    if !HeldBefore(store, key) {
      TakenIff(store, views, steps, |steps|, key);
    }
  }

  lemma NoneOpenedIff(store: Store, views: seq<View>, steps: seq<Step>)
    requires FromSubmit(store, views, steps)
    ensures (forall k :: !Opened(views, steps, |steps|, k)) <==> NoneOpens(steps)
  {
    forall k ensures Opened(views, steps, |steps|, k) <==> exists i: nat :: i < |steps| && OpensAt(steps, i, k) {
      OpenedIff(store, views, steps, k);
    }
    if i: nat, k :| i < |steps| && OpensAt(steps, i, k) {
      assert Opened(views, steps, |steps|, k);
    }
  }

  lemma Answers(store: Store, views: seq<View>, steps: seq<Step>)
    requires FromSubmit(store, views, steps)
    ensures views[|steps|].submission.accepted
            == if AnsweredBefore(steps, |steps|, true) then Some(true)
               else if AnsweredBefore(steps, |steps|, false) then Some(false)
               else None
  {
    AcceptedIs(store, views, steps, |steps|, true);
    AcceptedIs(store, views, steps, |steps|, false);
    match views[|steps|].submission.accepted
    case None =>
    case Some(accepted) =>
      if accepted {
      } else {
      }
  }

  /** The new task holds it if and only if no answer came, or a refusal came and no session was opened. */
  lemma NewTaskHoldsIff(store: Store, views: seq<View>, steps: seq<Step>)
    requires FromSubmit(store, views, steps) && !EditsTo(steps, |steps|, NEW_TASK)
    ensures Holds(views[|steps|], NEW_TASK)
            <==> !AnsweredBefore(steps, |steps|, true)
                 && (AnsweredBefore(steps, |steps|, false) ==> NoneOpens(steps))
  {
    var n := |steps|;
    DraftIsWhere(store, views, steps, NEW_TASK);
    UneditedStays(store, views, steps, n, NEW_TASK);
    Answers(store, views, steps);
    NoneOpenedIff(store, views, steps);
  }
}

/**
 * Sending the first message of a task. The draft is submitted under "new-task"; the session it creates may
 * be opened before or after the acknowledgement, and the user may go on editing all the while.
 */
module Submission {
  import opened Options
  import opened Drafts

  const NEW_TASK := "new-task"

  datatype Submitted = Submitted(key: string, draft: nat, accepted: Option<bool>)

  /**
   * The refs and the store of the conversation view. `seen` and `edited` record which keys have been on
   * screen and which have had their content changed since the submission; the program does not keep them.
   */
  datatype View = View(
    store: Store,
    draftKey: string,
    previousKey: string,
    migrated: Option<string>,
    submission: Submitted,
    seen: set<string>,
    edited: set<string>)

  /** There is a draft to submit that is not the shared empty draft, nor a mere copy of it. */
  predicate Written(store: Store) {
    NEW_TASK in store.drafts && Version(store.versions, store.drafts[NEW_TASK]) != Version(store.versions, 0)
  }

  /** Any text, flag or reference makes a draft written; one that was typed and deleted again is written too. */
  lemma ContentIsWritten(store: Store)
    requires Drafts.Valid(store) && NEW_TASK in store.drafts
    requires !Kindred(store.objects[store.drafts[NEW_TASK]], BLANK)
    ensures Written(store)
  {
    if !Written(store) {
      SharedVersionIsKindred(store, store.drafts[NEW_TASK], 0);
    }
  }

  /** The view just after `submit` has recorded the draft and called `send`. */
  function Submit(store: Store): View {
    View(store, NEW_TASK, NEW_TASK, None, Submitted(NEW_TASK, Get(store, NEW_TASK), None), {NEW_TASK}, {})
  }

  datatype Step =
    | Edit(key: string, patch: Patch)
    | Render(key: string)
    | Acknowledge(accepted: bool)

  /** Every update goes to a key that is or was on screen, and a submission is acknowledged once. */
  predicate Enabled(v: View, step: Step) {
    match step
    case Edit(key, _) => key in v.seen && Get(v.store, key) < |v.store.objects|
    case Render(_) => true
    case Acknowledge(_) => v.submission.accepted == None
  }

  /** The store after a draft has moved to the key of the session it opened. */
  function Migrated(store: Store, s: Submitted, key: string): Store {
    var adopted := Adopt(store, key, s.draft);
    if s.accepted == None then adopted
    else Clear(if s.accepted == Some(true) then Clear(adopted, key, s.draft) else adopted, s.key, s.draft)
  }

  /** Showing this key leaves the new task whose draft was submitted. */
  predicate Leaves(v: View, key: string) {
    v.submission.key == NEW_TASK && v.previousKey == NEW_TASK && key != NEW_TASK
  }

  /** The layout effect, for the draft key now shown. */
  function Migrate(v: View, key: string): View {
    var s := v.submission;
    if Leaves(v, key) then
      v.(store := Migrated(v.store, s, key), migrated := Some(key),
         draftKey := key, previousKey := key, seen := v.seen + {key})
    else v.(draftKey := key, previousKey := key, seen := v.seen + {key})
  }

  /** What follows `await send` in `submit`; a rejected or failed send is `false`. */
  function Settle(v: View, accepted: bool): View {
    var s := v.submission;
    var cleared :=
      if !accepted then v.store
      else
        var first := Clear(v.store, s.key, s.draft);
        if v.migrated.Some? then Clear(first, v.migrated.value, s.draft) else first;
    var store := if v.migrated.Some? then Clear(cleared, s.key, s.draft) else cleared;
    v.(store := store, submission := s.(accepted := Some(accepted)))
  }

  function EditDraft(v: View, key: string, patch: Patch): View
    requires Get(v.store, key) < |v.store.objects|
  {
    var previous := v.store.objects[Get(v.store, key)];
    v.(store := Update(v.store, key, patch),
       edited := if SameContent(previous, Drafts.Apply(previous, patch)) then v.edited else v.edited + {key})
  }

  function Next(v: View, step: Step): View
    requires Enabled(v, step)
  {
    match step
    case Edit(key, patch) => EditDraft(v, key, patch)
    case Render(key) => Migrate(v, key)
    case Acknowledge(accepted) => Settle(v, accepted)
  }

  ghost predicate Run(views: seq<View>, steps: seq<Step>) {
    && |views| == |steps| + 1
    && forall i | 0 <= i < |steps| :: Enabled(views[i], steps[i]) && views[i + 1] == Next(views[i], steps[i])
  }

  // ---------------------------------------------------------------- what may be under a key

  /** The submitted draft, unedited: a draft with its version. */
  predicate Holds(v: View, key: string) {
    Has(v.store, key, v.submission.draft)
  }

  /** A draft whose content was changed after the submission, when `horizon` drafts had been made. */
  predicate HoldsEdit(v: View, key: string, horizon: nat) {
    key in v.store.drafts && Version(v.store.versions, v.store.drafts[key]) >= horizon
  }

  /** The versions of the drafts made before the submission never change. */
  ghost predicate Sane(v: View, horizon: nat) {
    && Drafts.Valid(v.store)
    && v.submission.draft < horizon <= |v.store.objects|
    && Version(v.store.versions, v.submission.draft) != Version(v.store.versions, 0)
  }

  lemma EditIsSane(v: View, key: string, patch: Patch, horizon: nat)
    requires Sane(v, horizon) && Get(v.store, key) < |v.store.objects|
    ensures Sane(EditDraft(v, key, patch), horizon)
    ensures forall d: nat | d < |v.store.objects| ::
              Version(EditDraft(v, key, patch).store.versions, d) == Version(v.store.versions, d)
  {
    UpdateKeepsValid(v.store, key, patch);
  }

  lemma MigratedIsValid(store: Store, s: Submitted, key: string)
    requires Drafts.Valid(store) && s.draft < |store.objects|
    ensures var next := Migrated(store, s, key);
      Drafts.Valid(next) && next.versions == store.versions && next.objects == store.objects
  {
    AdoptKeepsValid(store, key, s.draft);
    var adopted := Adopt(store, key, s.draft);
    ClearKeepsValid(adopted, key, s.draft);
    ClearKeepsValid(if s.accepted == Some(true) then Clear(adopted, key, s.draft) else adopted, s.key, s.draft);
  }

  lemma RenderIsSane(v: View, key: string, horizon: nat)
    requires Sane(v, horizon)
    ensures Sane(Migrate(v, key), horizon) && Migrate(v, key).store.versions == v.store.versions
  {
    MigratedIsValid(v.store, v.submission, key);
  }

  lemma SettleIsSane(v: View, accepted: bool, horizon: nat)
    requires Sane(v, horizon)
    ensures Sane(Settle(v, accepted), horizon) && Settle(v, accepted).store.versions == v.store.versions
  {
  }

  lemma StepIsSane(v: View, step: Step, horizon: nat)
    requires Sane(v, horizon) && Enabled(v, step)
    ensures Sane(Next(v, step), horizon)
    ensures forall d: nat | d < |v.store.objects| ::
              Version(Next(v, step).store.versions, d) == Version(v.store.versions, d)
  {
    match step
    case Edit(key, patch) => EditIsSane(v, key, patch, horizon);
    case Render(key) => RenderIsSane(v, key, horizon);
    case Acknowledge(accepted) => SettleIsSane(v, accepted, horizon);
  }

  // ---------------------------------------------------------------- edits are safe

  lemma ClearKeepsEdit(store: Store, key: string, submitted: nat, horizon: nat, other: string)
    requires Drafts.Valid(store) && submitted < horizon <= |store.objects|
    requires other in store.drafts && Version(store.versions, store.drafts[other]) >= horizon
    ensures var next := Clear(store, key, submitted);
      && next.versions == store.versions && next.objects == store.objects
      && other in next.drafts && next.drafts[other] == store.drafts[other]
  {
  }

  lemma SettleKeepsEdits(v: View, accepted: bool, horizon: nat, key: string)
    requires Sane(v, horizon) && HoldsEdit(v, key, horizon)
    ensures HoldsEdit(Settle(v, accepted), key, horizon)
  {
    var s := v.submission;
    var first := Clear(v.store, s.key, s.draft);
    ClearKeepsEdit(v.store, s.key, s.draft, horizon, key);
    if v.migrated.Some? {
      ClearKeepsEdit(first, v.migrated.value, s.draft, horizon, key);
      var second := if accepted then Clear(first, v.migrated.value, s.draft) else v.store;
      ClearKeepsValid(first, v.migrated.value, s.draft);
      ClearKeepsEdit(second, s.key, s.draft, horizon, key);
    }
  }

  lemma MigrateKeepsEdits(v: View, shown: string, horizon: nat, key: string)
    requires Sane(v, horizon) && HoldsEdit(v, key, horizon)
    ensures HoldsEdit(Migrate(v, shown), key, horizon)
  {
    var s := v.submission;
    var adopted := Adopt(v.store, shown, s.draft);
    ClearKeepsEdit(adopted, shown, s.draft, horizon, key);
    var cleared := if s.accepted == Some(true) then Clear(adopted, shown, s.draft) else adopted;
    ClearKeepsEdit(cleared, s.key, s.draft, horizon, key);
  }

  /** No step deletes a draft that was edited after the submission, under any key. */
  lemma StepKeepsEdits(v: View, step: Step, horizon: nat, key: string)
    requires Sane(v, horizon) && Enabled(v, step) && HoldsEdit(v, key, horizon)
    ensures HoldsEdit(Next(v, step), key, horizon)
  {
    match step
    case Edit(k, patch) => UpdateKeepsValid(v.store, k, patch);
    case Render(k) => MigrateKeepsEdits(v, k, horizon, key);
    case Acknowledge(accepted) => SettleKeepsEdits(v, accepted, horizon, key);
  }

  lemma {:induction false} RunKeepsEdits(views: seq<View>, steps: seq<Step>, horizon: nat, key: string)
    requires Run(views, steps) && Sane(views[0], horizon) && HoldsEdit(views[0], key, horizon)
    ensures Sane(views[|steps|], horizon) && HoldsEdit(views[|steps|], key, horizon)
    decreases |steps|
  {
    if steps != [] {
      assert views[1] == Next(views[0], steps[0]);
      StepIsSane(views[0], steps[0], horizon);
      StepKeepsEdits(views[0], steps[0], horizon, key);
      assert forall i | 0 <= i < |steps| - 1 :: steps[1..][i] == steps[i + 1];
      RunKeepsEdits(views[1..], steps[1..], horizon, key);
    }
  }

  // ---------------------------------------------------------------- the view

  /** The refs of the conversation view, updated by its layout effect and by `submit`. */
  class Conversation {
    const store: DraftStore
    var previousKey: string
    var migrated: Option<string>
    var submission: Submitted
    ghost var seen: set<string>
    ghost var edited: set<string>

    ghost function State(): View
      reads this, store
    {
      View(store.State(), previousKey, previousKey, migrated, submission, seen, edited)
    }

    ghost predicate Ready()
      reads this, store
    {
      Drafts.Valid(store.State()) && submission.draft < |store.objects|
    }

    constructor (store: DraftStore)
      requires Drafts.Valid(store.State())
      ensures this.store == store && Ready() && State() == Submit(store.State())
    {
      this.store := store;
      previousKey, migrated, seen, edited := NEW_TASK, None, {NEW_TASK}, {};
      new;
      var draft := store.Read(NEW_TASK);
      submission := Submitted(NEW_TASK, draft, None);
    }

    method LayoutEffect(draftKey: string)
      requires Ready()
      modifies this, store
      ensures Ready() && State() == Migrate(old(State()), draftKey)
    {
      if submission.key == NEW_TASK && previousKey == NEW_TASK && draftKey != NEW_TASK {
        store.TakeOver(draftKey, submission.draft);
        migrated := Some(draftKey);
        if submission.accepted != None {
          if submission.accepted == Some(true) {
            store.Remove(draftKey, submission.draft);
          }
          store.Remove(submission.key, submission.draft);
        }
      }
      previousKey := draftKey;
      seen := seen + {draftKey};
    }

    /** The rest of `submit` once `send` has returned, or thrown when `accepted` is false. */
    method AfterSend(accepted: bool)
      requires Ready() && submission.accepted == None
      modifies this, store
      ensures Ready() && State() == Settle(old(State()), accepted)
    {
      submission := submission.(accepted := Some(accepted));
      if accepted {
        store.Remove(submission.key, submission.draft);
        if migrated.Some? {
          store.Remove(migrated.value, submission.draft);
        }
      }
      if migrated.Some? {
        store.Remove(submission.key, submission.draft);
      }
    }
  }
}

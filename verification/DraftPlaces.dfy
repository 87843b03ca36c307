/**
 * Where the submitted draft is, at every moment of every run: whatever the order of acknowledgement,
 * navigation and edits, and however many sessions are opened.
 */
module DraftPlaces {
  import opened Options
  import opened Drafts
  import opened Submission

  // ---------------------------------------------------------------- the steps that matter

  /** The step opens the session `key` from the new task. */
  predicate Opens(v: View, step: Step, key: string) {
    step == Render(key) && Leaves(v, key)
  }

  /** The session takes the submitted draft, because it has no draft of its own. */
  predicate Takes(v: View, step: Step, key: string) {
    Opens(v, step, key) && key !in v.store.drafts
  }

  /** The session loses it: it was opened last when the send was accepted, or it is opened after that. */
  predicate Drops(v: View, step: Step, key: string) {
    (step == Acknowledge(true) && v.migrated == Some(key))
    || (Opens(v, step, key) && v.submission.accepted == Some(true))
  }

  ghost predicate Opened(views: seq<View>, steps: seq<Step>, n: nat, key: string)
    requires n <= |steps| && n < |views|
  {
    exists i :: 0 <= i < n && Opens(views[i], steps[i], key)
  }

  ghost predicate Taken(views: seq<View>, steps: seq<Step>, n: nat, key: string)
    requires n <= |steps| && n < |views|
  {
    exists i :: 0 <= i < n && Takes(views[i], steps[i], key)
  }

  ghost predicate Dropped(views: seq<View>, steps: seq<Step>, n: nat, key: string)
    requires n <= |steps| && n < |views|
  {
    exists i :: 0 <= i < n && Drops(views[i], steps[i], key)
  }

  // ---------------------------------------------------------------- one step

  /** `taken`: the session has held the draft; `dropped`: it was taken away again. */
  predicate Placed(v: View, key: string, horizon: nat, taken: bool, dropped: bool) {
    && (HoldsEdit(v, key, horizon) <==> key in v.edited)
    && (key !in v.edited ==>
          (Holds(v, key) <==>
             if key == NEW_TASK then
               v.submission.accepted == None || (v.submission.accepted == Some(false) && v.migrated == None)
             else taken && !dropped))
  }

  ghost predicate Ready(v: View, horizon: nat, dropped: bool) {
    Sane(v, horizon) && v.submission.key == NEW_TASK && (dropped ==> v.submission.accepted == Some(true))
  }

  lemma EditPlaces(v: View, k: string, patch: Patch, key: string, horizon: nat, taken: bool, dropped: bool)
    requires Ready(v, horizon, dropped) && Placed(v, key, horizon, taken, dropped)
    requires Get(v.store, k) < |v.store.objects|
    ensures Placed(EditDraft(v, k, patch), key, horizon, taken, dropped)
  {
    UpdateKeepsValid(v.store, k, patch);
  }

  lemma MigratedHas(store: Store, s: Submitted, k: string, key: string)
    requires Version(store.versions, s.draft) != Version(store.versions, 0)
    ensures var had := Has(store, key, s.draft) || (key == k && k !in store.drafts);
      Has(Migrated(store, s, k), key, s.draft)
      <==> if s.accepted == None then had
           else if s.accepted == Some(true) then had && key != k && key != s.key
           else had && key != s.key
  {
    var adopted := Adopt(store, k, s.draft);
    AdoptHas(store, k, s.draft, key);
    ClearHas(adopted, k, s.draft, key);
    ClearHas(adopted, s.key, s.draft, key);
    ClearHas(Clear(adopted, k, s.draft), s.key, s.draft, key);
  }

  lemma OpenPlaces(v: View, k: string, key: string, horizon: nat, taken: bool, dropped: bool)
    requires Ready(v, horizon, dropped) && Placed(v, key, horizon, taken, dropped) && Leaves(v, k)
    requires key in v.edited ==> HoldsEdit(Migrate(v, k), key, horizon)
    ensures var step := Render(k);
      Placed(Migrate(v, k), key, horizon, taken || Takes(v, step, key), dropped || Drops(v, step, key))
  {
    MigratedHas(v.store, v.submission, k, key);
  }

  lemma SettledHas(v: View, accepted: bool, key: string)
    requires Version(v.store.versions, v.submission.draft) != Version(v.store.versions, 0)
    ensures Holds(Settle(v, accepted), key)
            <==> Holds(v, key)
                 && (accepted ==> key != v.submission.key && v.migrated != Some(key))
                 && (v.migrated.Some? ==> key != v.submission.key)
  {
    var s := v.submission;
    ClearHas(v.store, s.key, s.draft, key);
    var first := Clear(v.store, s.key, s.draft);
    if v.migrated.Some? {
      var second := Clear(first, v.migrated.value, s.draft);
      ClearHas(first, v.migrated.value, s.draft, key);
      ClearHas(second, s.key, s.draft, key);
    }
  }

  lemma SettlePlaces(v: View, accepted: bool, key: string, horizon: nat, taken: bool, dropped: bool)
    requires Ready(v, horizon, dropped) && Placed(v, key, horizon, taken, dropped) && v.submission.accepted == None
    requires key in v.edited ==> HoldsEdit(Settle(v, accepted), key, horizon)
    ensures Placed(Settle(v, accepted), key, horizon, taken, dropped || Drops(v, Acknowledge(accepted), key))
  {
    SettledHas(v, accepted, key);
  }

  lemma StepPlaces(v: View, step: Step, key: string, horizon: nat, taken: bool, dropped: bool)
    requires Ready(v, horizon, dropped) && Placed(v, key, horizon, taken, dropped) && Submission.Enabled(v, step)
    ensures Ready(Next(v, step), horizon, dropped || Drops(v, step, key))
    ensures Placed(Next(v, step), key, horizon, taken || Takes(v, step, key), dropped || Drops(v, step, key))
  {
    StepIsSane(v, step, horizon);
    if key in v.edited {
      StepKeepsEdits(v, step, horizon, key);
    }
    match step
    case Edit(k, patch) => EditPlaces(v, k, patch, key, horizon, taken, dropped);
    case Render(k) =>
      if Leaves(v, k) {
        OpenPlaces(v, k, key, horizon, taken, dropped);
      }
    case Acknowledge(accepted) => SettlePlaces(v, accepted, key, horizon, taken, dropped);
  }

  // ---------------------------------------------------------------- every run

  /** A run from the moment of the submission. */
  ghost predicate FromSubmit(store: Store, views: seq<View>, steps: seq<Step>) {
    Drafts.Valid(store) && Written(store) && Submission.Run(views, steps) && views[0] == Submit(store)
  }

  /** The session holds the same draft already when it is submitted. */
  predicate HeldBefore(store: Store, key: string) {
    key in store.drafts && NEW_TASK in store.drafts
    && Version(store.versions, store.drafts[key]) == Version(store.versions, store.drafts[NEW_TASK])
  }

  lemma TakenNext(views: seq<View>, steps: seq<Step>, n: nat, key: string)
    requires n < |steps| && n + 1 < |views|
    ensures Taken(views, steps, n + 1, key) <==> Taken(views, steps, n, key) || Takes(views[n], steps[n], key)
    ensures Dropped(views, steps, n + 1, key) <==> Dropped(views, steps, n, key) || Drops(views[n], steps[n], key)
    ensures Opened(views, steps, n + 1, key) <==> Opened(views, steps, n, key) || Opens(views[n], steps[n], key)
  {
  }

  /** The session has had the submitted draft in this run. */
  ghost predicate Received(store: Store, views: seq<View>, steps: seq<Step>, key: string)
    requires |views| == |steps| + 1
  {
    HeldBefore(store, key) || Taken(views, steps, |steps|, key)
  }

  lemma {:induction false} RunPlaces(store: Store, views: seq<View>, steps: seq<Step>, n: nat, key: string)
    requires FromSubmit(store, views, steps) && n <= |steps|
    ensures Ready(views[n], |store.objects|, Dropped(views, steps, n, key))
    ensures Placed(views[n], key, |store.objects|,
                   HeldBefore(store, key) || Taken(views, steps, n, key), Dropped(views, steps, n, key))
    decreases n
  {
    if n > 0 {
      var m := n - 1;
      var taken := HeldBefore(store, key) || Taken(views, steps, m, key);
      RunPlaces(store, views, steps, m, key);
      assert views[m + 1] == Next(views[m], steps[m]);
      StepPlaces(views[m], steps[m], key, |store.objects|, taken, Dropped(views, steps, m, key));
      TakenNext(views, steps, m, key);
    }
  }

  /**
   * The exact place of the submitted draft after any run. A key edited since holds its edit and nothing else
   * does; any other session holds the submitted draft if and only if it took it, or held it before, and has
   * not dropped it; the new task holds it until the send is accepted or a session is opened after it.
   */
  lemma DraftIsWhere(store: Store, views: seq<View>, steps: seq<Step>, key: string)
    requires FromSubmit(store, views, steps)
    ensures var v, n, horizon := views[|steps|], |steps|, |store.objects|;
      && (HoldsEdit(v, key, horizon) <==> key in v.edited)
      && (Holds(v, key)
          <==> key !in v.edited
               && if key == NEW_TASK then
                    v.submission.accepted == None
                    || (v.submission.accepted == Some(false) && forall k :: !Opened(views, steps, n, k))
                  else Received(store, views, steps, key) && !Dropped(views, steps, n, key))
  {
    RunPlaces(store, views, steps, |steps|, key);
    MigratedIff(store, views, steps, |steps|);
  }

  lemma {:induction false} MigratedIff(store: Store, views: seq<View>, steps: seq<Step>, n: nat)
    requires FromSubmit(store, views, steps) && n <= |steps|
    ensures views[n].migrated == None <==> forall k :: !Opened(views, steps, n, k)
    decreases n
  {
    if n > 0 {
      var m := n - 1;
      MigratedIff(store, views, steps, m);
      assert views[m + 1] == Next(views[m], steps[m]);
      forall k ensures Opened(views, steps, n, k) <==> Opened(views, steps, m, k) || Opens(views[m], steps[m], k) {
        TakenNext(views, steps, m, k);
      }
      if steps[m].Render? {
        assert Leaves(views[m], steps[m].key) <==> Opens(views[m], steps[m], steps[m].key);
      }
    }
  }

  // ---------------------------------------------------------------- when the draft is nowhere, or twice

  /** An accepted draft is gone, if nothing was edited, exactly when every session that had it has dropped it. */
  lemma AcceptedDraftIsGoneIff(store: Store, views: seq<View>, steps: seq<Step>)
    requires FromSubmit(store, views, steps)
    requires views[|steps|].submission.accepted == Some(true) && views[|steps|].edited == {}
    ensures (forall key :: !Holds(views[|steps|], key))
            <==> forall key | key != NEW_TASK ::
                   Received(store, views, steps, key) ==> Dropped(views, steps, |steps|, key)
  {
    var v := views[|steps|];
    if key :| Holds(v, key) {
      DraftIsWhere(store, views, steps, key);
    } else {
      forall key | key != NEW_TASK && Received(store, views, steps, key)
        ensures Dropped(views, steps, |steps|, key)
      {
        DraftIsWhere(store, views, steps, key);
        assert !Holds(v, key);
      }
    }
  }

  /** A rejected draft is never dropped: each session that took it keeps it. */
  lemma RejectedDraftIsWhere(store: Store, views: seq<View>, steps: seq<Step>, key: string)
    requires FromSubmit(store, views, steps)
    requires views[|steps|].submission.accepted == Some(false) && key !in views[|steps|].edited
    ensures Holds(views[|steps|], key)
            <==> if key == NEW_TASK then forall k :: !Opened(views, steps, |steps|, k)
                 else Received(store, views, steps, key)
  {
    DraftIsWhere(store, views, steps, key);
    RunPlaces(store, views, steps, |steps|, key);
  }

  /** A session was opened, none took the draft, and none had it before. */
  ghost predicate OpenedInVain(store: Store, views: seq<View>, steps: seq<Step>)
    requires |views| == |steps| + 1
  {
    && (exists k :: Opened(views, steps, |steps|, k))
    && forall key | key != NEW_TASK :: !Received(store, views, steps, key)
  }

  /** So that is exactly when it is lost. */
  lemma RejectedDraftIsLostIff(store: Store, views: seq<View>, steps: seq<Step>)
    requires FromSubmit(store, views, steps)
    requires views[|steps|].submission.accepted == Some(false) && views[|steps|].edited == {}
    ensures (forall key :: !Holds(views[|steps|], key)) <==> OpenedInVain(store, views, steps)
  {
    var v := views[|steps|];
    if OpenedInVain(store, views, steps) {
      forall key ensures !Holds(v, key) {
        RejectedDraftIsWhere(store, views, steps, key);
      }
    }
    if forall key :: !Holds(v, key) {
      RejectedDraftIsWhere(store, views, steps, NEW_TASK);
      assert !Holds(v, NEW_TASK);
      forall key | key != NEW_TASK ensures !Received(store, views, steps, key) {
        RejectedDraftIsWhere(store, views, steps, key);
        assert !Holds(v, key);
      }
    }
  }

  /** The shortest such run: a session with another draft is opened, and then the send is rejected. */
  lemma RejectedDraftIsLostOnce(store: Store, s: string, key: string)
    requires Drafts.Valid(store) && Written(store)
    requires s != NEW_TASK && s in store.drafts && !HeldBefore(store, s)
    requires key == NEW_TASK || !HeldBefore(store, key)
    ensures !Holds(Settle(Migrate(Submit(store), s), false), key)
  {
    var start := Submit(store);
    MigratedHas(store, start.submission, s, key);
    SettledHas(Migrate(start, s), false, key);
  }

  /** And it is under two sessions exactly when both have had it. */
  lemma RejectedDraftIsTwiceIff(store: Store, views: seq<View>, steps: seq<Step>, a: string, b: string)
    requires FromSubmit(store, views, steps) && a != NEW_TASK && b != NEW_TASK
    requires views[|steps|].submission.accepted == Some(false)
    requires a !in views[|steps|].edited && b !in views[|steps|].edited
    ensures Holds(views[|steps|], a) && Holds(views[|steps|], b)
            <==> Received(store, views, steps, a) && Received(store, views, steps, b)
  {
    RejectedDraftIsWhere(store, views, steps, a);
    RejectedDraftIsWhere(store, views, steps, b);
  }

  // ---------------------------------------------------------------- what a session takes

  ghost predicate EditsTo(steps: seq<Step>, n: nat, key: string)
    requires n <= |steps|
  {
    exists i :: 0 <= i < n && steps[i].Edit? && steps[i].key == key
  }

  lemma {:induction false} UneditedStays(store: Store, views: seq<View>, steps: seq<Step>, n: nat, key: string)
    requires FromSubmit(store, views, steps) && n <= |steps| && !EditsTo(steps, n, key)
    ensures key !in views[n].edited
    decreases n
  {
    if n > 0 {
      assert forall i | 0 <= i < n - 1 && steps[i].Edit? && steps[i].key == key :: i < n;
      UneditedStays(store, views, steps, n - 1, key);
      assert views[n - 1 + 1] == Next(views[n - 1], steps[n - 1]);
    }
  }

  lemma OthersStay(v: View, step: Step, key: string)
    requires Submission.Enabled(v, step) && key != v.submission.key && v.migrated != Some(key)
    requires !(step.Edit? && step.key == key) && !Opens(v, step, key)
    ensures key in Next(v, step).store.drafts <==> key in v.store.drafts
    ensures Next(v, step).migrated != Some(key)
  {
  }

  lemma {:induction false} UnopenedStays(store: Store, views: seq<View>, steps: seq<Step>, n: nat, key: string)
    requires FromSubmit(store, views, steps) && n <= |steps| && key != NEW_TASK
    requires !EditsTo(steps, n, key) && !Opened(views, steps, n, key)
    ensures views[n].migrated != Some(key) && (key in views[n].store.drafts <==> key in store.drafts)
    decreases n
  {
    if n > 0 {
      var m := n - 1;
      assert forall i | 0 <= i < m && steps[i].Edit? && steps[i].key == key :: i < n;
      UnopenedStays(store, views, steps, m, key);
      RunPlaces(store, views, steps, m, key);
      assert views[m + 1] == Next(views[m], steps[m]);
      OthersStay(views[m], steps[m], key);
    }
  }

  lemma OtherDraftMigrates(v: View, k: string, key: string)
    requires key in v.store.drafts && !Holds(v, key)
    ensures var next := Migrate(v, k); key in next.store.drafts && next.store.drafts[key] == v.store.drafts[key]
  {
    var s := v.submission;
    var adopted := Adopt(v.store, k, s.draft);
    ClearKeepsOther(adopted, k, s.draft, key);
    ClearKeepsOther(if s.accepted == Some(true) then Clear(adopted, k, s.draft) else adopted, s.key, s.draft, key);
  }

  lemma OtherDraftSettles(v: View, accepted: bool, key: string)
    requires key in v.store.drafts && !Holds(v, key)
    ensures var next := Settle(v, accepted); key in next.store.drafts && next.store.drafts[key] == v.store.drafts[key]
  {
    var s := v.submission;
    var first := Clear(v.store, s.key, s.draft);
    ClearKeepsOther(v.store, s.key, s.draft, key);
    if v.migrated.Some? {
      ClearKeepsOther(first, v.migrated.value, s.draft, key);
      ClearKeepsOther(Clear(first, v.migrated.value, s.draft), s.key, s.draft, key);
    }
  }

  lemma OtherDraftStaysOnce(v: View, step: Step, key: string, horizon: nat, draft: nat)
    requires Sane(v, horizon) && Submission.Enabled(v, step) && !(step.Edit? && step.key == key)
    requires key in v.store.drafts && v.store.drafts[key] == draft && !Holds(v, key)
    ensures var next := Next(v, step);
      key in next.store.drafts && next.store.drafts[key] == draft && !Holds(next, key)
  {
    StepIsSane(v, step, horizon);
    match step
    case Edit(_, _) =>
    case Render(k) => OtherDraftMigrates(v, k, key);
    case Acknowledge(accepted) => OtherDraftSettles(v, accepted, key);
  }

  lemma {:induction false} OtherDraftStays(store: Store, views: seq<View>, steps: seq<Step>, n: nat, key: string)
    requires FromSubmit(store, views, steps) && n <= |steps| && !EditsTo(steps, n, key)
    requires key in store.drafts && !HeldBefore(store, key)
    ensures var v := views[n];
      key in v.store.drafts && v.store.drafts[key] == store.drafts[key] && !Holds(v, key)
    decreases n
  {
    if n > 0 {
      var m := n - 1;
      assert forall i | 0 <= i < m && steps[i].Edit? && steps[i].key == key :: i < n;
      OtherDraftStays(store, views, steps, m, key);
      RunPlaces(store, views, steps, m, key);
      assert views[m + 1] == Next(views[m], steps[m]);
      OtherDraftStaysOnce(views[m], steps[m], key, |store.objects|, store.drafts[key]);
    }
  }

  /** A session that nobody writes in takes the draft exactly if it is opened and had no draft at the submission. */
  lemma {:induction false} TakenIff(store: Store, views: seq<View>, steps: seq<Step>, n: nat, key: string)
    requires FromSubmit(store, views, steps) && n <= |steps| && key != NEW_TASK
    requires !EditsTo(steps, n, key) && !HeldBefore(store, key)
    ensures Taken(views, steps, n, key) <==> Opened(views, steps, n, key) && key !in store.drafts
    decreases n
  {
    if n > 0 {
      var m := n - 1;
      assert forall i | 0 <= i < m && steps[i].Edit? && steps[i].key == key :: i < n;
      TakenIff(store, views, steps, m, key);
      TakenNext(views, steps, m, key);
      if key in store.drafts {
        OtherDraftStays(store, views, steps, m, key);
      } else if !Opened(views, steps, m, key) {
        UnopenedStays(store, views, steps, m, key);
      }
    }
  }

  /**
   * An accepted draft stays under a session that nobody writes in, and that did not hold it already, if and only if
   * the session was opened without a draft of its own, was not the last one opened before the answer, and was not
   * opened after it.
   */
  lemma AcceptedDraftStaysIff(store: Store, views: seq<View>, steps: seq<Step>, key: string)
    requires FromSubmit(store, views, steps) && key != NEW_TASK && !HeldBefore(store, key)
    requires !EditsTo(steps, |steps|, key) && views[|steps|].submission.accepted == Some(true)
    ensures Holds(views[|steps|], key)
            <==> Opened(views, steps, |steps|, key) && key !in store.drafts && !Dropped(views, steps, |steps|, key)
  {
    DraftIsWhere(store, views, steps, key);
    UneditedStays(store, views, steps, |steps|, key);
    TakenIff(store, views, steps, |steps|, key);
  }

  // ---------------------------------------------------------------- one session

  /** Every time the new task is left, it is for the session `s`. */
  ghost predicate Orderly(views: seq<View>, steps: seq<Step>, s: string) {
    |views| == |steps| + 1 && forall i, k | 0 <= i < |steps| && Opens(views[i], steps[i], k) :: k == s
  }

  lemma OrderlyOpened(views: seq<View>, steps: seq<Step>, s: string, n: nat, k: string)
    requires Orderly(views, steps, s) && n <= |steps| && Opened(views, steps, n, k)
    ensures k == s
  {
  }

  /**
   * With one session and nothing edited, a rejected draft is under the new task or under the session if and only
   * if the session was not opened, or had no draft when the draft was submitted, or the same one.
   */
  lemma RejectedDraftSurvivesIff(store: Store, s: string, views: seq<View>, steps: seq<Step>)
    requires FromSubmit(store, views, steps) && Orderly(views, steps, s) && s != NEW_TASK
    requires NEW_TASK !in views[|steps|].edited && !EditsTo(steps, |steps|, s)
    requires views[|steps|].submission.accepted == Some(false)
    ensures var v := views[|steps|];
      Holds(v, NEW_TASK) || Holds(v, s)
      <==> v.migrated == None || s !in store.drafts || HeldBefore(store, s)
  {
    UneditedStays(store, views, steps, |steps|, s);
    RejectedDraftIsWhere(store, views, steps, NEW_TASK);
    RejectedDraftIsWhere(store, views, steps, s);
    MigratedIff(store, views, steps, |steps|);
    forall k | Opened(views, steps, |steps|, k) ensures k == s {
      OrderlyOpened(views, steps, s, |steps|, k);
    }
    if !HeldBefore(store, s) {
      TakenIff(store, views, steps, |steps|, s);
    }
  }

  /** Until it is opened nobody can write in a session that is not on screen. */
  lemma {:induction false} FreshUntilOpened(store: Store, s: string, views: seq<View>, steps: seq<Step>, n: nat)
    requires FromSubmit(store, views, steps) && Orderly(views, steps, s) && n <= |steps|
    requires s != NEW_TASK && s !in store.drafts
    ensures var v := views[n];
      if v.migrated == None then v.previousKey == NEW_TASK && v.seen == {NEW_TASK} && s !in v.store.drafts
      else v.migrated == Some(s) && Taken(views, steps, n, s)
           && (v.submission.accepted == Some(true) ==> Dropped(views, steps, n, s))
    decreases n
  {
    if n > 0 {
      var m := n - 1;
      FreshUntilOpened(store, s, views, steps, m);
      RunPlaces(store, views, steps, m, s);
      assert views[m + 1] == Next(views[m], steps[m]);
      TakenNext(views, steps, m, s);
      if steps[m].Render? && Leaves(views[m], steps[m].key) {
        assert Opens(views[m], steps[m], steps[m].key);
      }
    }
  }

  /**
   * Whatever the order of acknowledgement, navigation and edits, with one fresh session: an accepted draft ends
   * under neither key; a rejected one ends under the session when that was opened and under the new task
   * otherwise, and there it is the submitted draft itself unless it was edited.
   */
  lemma DraftEndsInOnePlace(store: Store, s: string, views: seq<View>, steps: seq<Step>)
    requires FromSubmit(store, views, steps) && Orderly(views, steps, s)
    requires s != NEW_TASK && s !in store.drafts
    ensures var v, horizon := views[|steps|], |store.objects|;
      var place := if v.migrated == None then NEW_TASK else s;
      && (v.submission.accepted == Some(true) ==> !Holds(v, NEW_TASK) && !Holds(v, s))
      && (v.submission.accepted == Some(false) ==>
            && (if place in v.edited then HoldsEdit(v, place, horizon) else Holds(v, place))
            && (place == s ==> !Holds(v, NEW_TASK)))
  {
    DraftIsWhere(store, views, steps, NEW_TASK);
    DraftIsWhere(store, views, steps, s);
    FreshUntilOpened(store, s, views, steps, |steps|);
    RunPlaces(store, views, steps, |steps|, s);
    MigratedIff(store, views, steps, |steps|);
  }

  // ---------------------------------------------------------------- two sessions

  /**
   * Opening one session, going back, and opening another before the answer comes: an accepted draft stays under
   * the first session, and a rejected one is under both.
   */
  lemma TwoSessionsKeepTheDraft(store: Store, first: string, second: string, accepted: bool)
    requires Drafts.Valid(store) && Written(store)
    requires first != NEW_TASK && second != NEW_TASK && first != second
    requires first !in store.drafts && second !in store.drafts
    ensures var v := Settle(Migrate(Migrate(Migrate(Submit(store), first), NEW_TASK), second), accepted);
      Holds(v, first) && (Holds(v, second) <==> !accepted) && !Holds(v, NEW_TASK)
  {
    var start := Submit(store);
    var back := Migrate(Migrate(start, first), NEW_TASK);
    var away := Migrate(back, second);
    forall key ensures Holds(away, key) <==> Has(store, key, start.submission.draft) || key == first || key == second {
      MigratedHas(store, start.submission, first, key);
      MigratedHas(back.store, start.submission, second, key);
    }
    SettledHas(away, accepted, first);
    SettledHas(away, accepted, second);
    SettledHas(away, accepted, NEW_TASK);
  }
}

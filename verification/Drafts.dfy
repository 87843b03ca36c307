/**
 * Draft versions. Drafts are immutable objects compared by identity: a draft is a position in `objects`,
 * the list of all drafts made so far, and position 0 is the shared empty draft.
 */
module Drafts {
  import opened Options

  /** Referenced entries are compared by identity, so an entry is a number. */
  datatype References = References(scope: string, entries: seq<nat>)
  datatype Content = Content(text: string, skillCreator: Option<bool>, references: References)

  /** The fields an update sets. */
  datatype Patch = Patch(text: Option<string>, skillCreator: Option<Option<bool>>, references: Option<References>)

  const BLANK := Content("", None, References("", []))

  datatype Store = Store(objects: seq<Content>, drafts: map<string, nat>, versions: map<nat, nat>)

  const INITIAL := Store([BLANK], map[], map[])

  function Get(s: Store, key: string): nat {
    if key in s.drafts then s.drafts[key] else 0
  }

  /** The version of a draft: its recorded one, or else itself. */
  function Version(versions: map<nat, nat>, draft: nat): nat {
    if draft in versions then versions[draft] else draft
  }

  function Apply(c: Content, patch: Patch): Content {
    Content(
      if patch.text.Some? then patch.text.value else c.text,
      if patch.skillCreator.Some? then patch.skillCreator.value else c.skillCreator,
      if patch.references.Some? then patch.references.value else c.references)
  }

  predicate SameReferences(previous: References, next: References) {
    previous.entries == next.entries
    && (next.scope == previous.scope || (next.entries == [] && (previous.scope == "" || next.scope == "")))
  }

  predicate SameContent(previous: Content, next: Content) {
    previous.text == next.text && previous.skillCreator == next.skillCreator
    && SameReferences(previous.references, next.references)
  }

  /** Versions name earlier or equal drafts with kindred content, and a version is its own version. */
  ghost predicate Sound(objects: seq<Content>, versions: map<nat, nat>) {
    && (forall d | d in versions :: d < |objects|)
    && (forall d: nat | d < |objects| :: Version(versions, d) <= d)
    && (forall d: nat | d < |objects| :: Version(versions, Version(versions, d)) == Version(versions, d))
    && (forall d: nat | d < |objects| :: Kindred(objects[d], objects[Version(versions, d)]))
  }

  ghost predicate Valid(s: Store) {
    && s.objects != [] && s.objects[0] == BLANK
    && (forall key | key in s.drafts :: s.drafts[key] < |s.objects|)
    && Sound(s.objects, s.versions)
  }

  /** Equal but for the scope of an empty reference list. */
  predicate Kindred(a: Content, b: Content) {
    && a.text == b.text && a.skillCreator == b.skillCreator
    && a.references.entries == b.references.entries
    && (a.references.entries != [] ==> a.references.scope == b.references.scope)
  }

  function Update(s: Store, key: string, patch: Patch): Store
    requires Get(s, key) < |s.objects|
  {
    var previous := Get(s, key);
    var next := Apply(s.objects[previous], patch);
    var d := |s.objects|;
    Store(s.objects + [next],
          s.drafts[key := d],
          s.versions[d := if SameContent(s.objects[previous], next) then Version(s.versions, previous) else d])
  }

  function Adopt(s: Store, key: string, draft: nat): Store {
    if key in s.drafts then s else s.(drafts := s.drafts[key := draft])
  }

  predicate IsCurrent(s: Store, key: string, submitted: nat) {
    Version(s.versions, Get(s, key)) == Version(s.versions, submitted)
  }

  /** A draft of this version is under the key. */
  predicate Has(s: Store, key: string, draft: nat) {
    key in s.drafts && Version(s.versions, s.drafts[key]) == Version(s.versions, draft)
  }

  function Clear(s: Store, key: string, submitted: nat): Store {
    if IsCurrent(s, key, submitted) then s.(drafts := s.drafts - {key}) else s
  }

  // ---------------------------------------------------------------- invariant

  lemma SoundNext(objects: seq<Content>, versions: map<nat, nat>, content: Content, version: nat)
    requires Sound(objects, versions)
    requires version == |objects|
             || (version < |objects| && Version(versions, version) == version && Kindred(content, objects[version]))
    ensures Sound(objects + [content], versions[|objects| := version])
    ensures forall d: nat | d < |objects| :: Version(versions[|objects| := version], d) == Version(versions, d)
  {
    var objects', versions' := objects + [content], versions[|objects| := version];
    forall d: nat | d < |objects'|
      ensures Version(versions', d) <= d
      ensures Version(versions', Version(versions', d)) == Version(versions', d)
      ensures Kindred(objects'[d], objects'[Version(versions', d)])
    {
      if d < |objects| {
        var v := Version(versions, d);
        assert v <= d && Version(versions', d) == v && Version(versions', v) == Version(versions, v);
      }
    }
  }

  lemma UpdateKeepsValid(s: Store, key: string, patch: Patch)
    requires Valid(s)
    ensures Valid(Update(s, key, patch))
    ensures forall d: nat | d < |s.objects| :: Version(Update(s, key, patch).versions, d) == Version(s.versions, d)
  {
    var previous := Get(s, key);
    var content := Apply(s.objects[previous], patch);
    var version := if SameContent(s.objects[previous], content) then Version(s.versions, previous) else |s.objects|;
    SoundNext(s.objects, s.versions, content, version);
  }

  lemma AdoptKeepsValid(s: Store, key: string, draft: nat)
    requires Valid(s) && draft < |s.objects|
    ensures Valid(Adopt(s, key, draft))
  {
  }

  lemma ClearKeepsValid(s: Store, key: string, submitted: nat)
    requires Valid(s)
    ensures Valid(Clear(s, key, submitted))
  {
  }

  lemma AdoptHas(s: Store, key: string, draft: nat, other: string)
    ensures Adopt(s, key, draft).objects == s.objects && Adopt(s, key, draft).versions == s.versions
    ensures Has(Adopt(s, key, draft), other, draft) <==> Has(s, other, draft) || (other == key && key !in s.drafts)
  {
  }

  /** A clear of a draft that is not the empty one takes it from this key and from no other. */
  lemma ClearHas(s: Store, key: string, draft: nat, other: string)
    requires Version(s.versions, draft) != Version(s.versions, 0)
    ensures Clear(s, key, draft).objects == s.objects && Clear(s, key, draft).versions == s.versions
    ensures Has(Clear(s, key, draft), other, draft) <==> Has(s, other, draft) && other != key
  {
  }

  /** And it does not touch a draft of another version. */
  lemma ClearKeepsOther(s: Store, key: string, draft: nat, other: string)
    requires other in s.drafts && !Has(s, other, draft)
    ensures Clear(s, key, draft).versions == s.versions
    ensures other in Clear(s, key, draft).drafts && Clear(s, key, draft).drafts[other] == s.drafts[other]
  {
  }

  // ---------------------------------------------------------------- versions

  /** Drafts that share a version have the same text, flag and entries, and the same scope if there are entries. */
  lemma SharedVersionIsKindred(s: Store, a: nat, b: nat)
    requires Valid(s) && a < |s.objects| && b < |s.objects| && Version(s.versions, a) == Version(s.versions, b)
    ensures Kindred(s.objects[a], s.objects[b])
  {
    assert Kindred(s.objects[a], s.objects[Version(s.versions, a)]);
    assert Kindred(s.objects[b], s.objects[Version(s.versions, b)]);
  }

  /** The draft that was under a key and the one an update puts there, equal but for blank scopes without entries. */
  ghost predicate Unedited(s: Store, next: Store, key: string)
    requires Get(s, key) < |s.objects| && Get(next, key) < |next.objects|
  {
    var was, now := s.objects[Get(s, key)], next.objects[Get(next, key)];
    && now.text == was.text && now.skillCreator == was.skillCreator && now.references.entries == was.references.entries
    && (now.references.scope == was.references.scope
        || (now.references.entries == [] && (now.references.scope == "" || was.references.scope == "")))
  }

  /** An update gives a version no earlier draft has if and only if it changes the content. */
  lemma EditMakesAFreshVersion(s: Store, key: string, patch: Patch)
    requires Valid(s)
    ensures var next := Update(s, key, patch);
      && Get(next, key) < |next.objects|
      && (!Unedited(s, next, key)
          <==> forall d: nat | d < |s.objects| :: Version(next.versions, d) != Version(next.versions, Get(next, key)))
  {
    UpdateKeepsValid(s, key, patch);
    var next := Update(s, key, patch);
    var previous := Get(s, key);
    if Unedited(s, next, key) {
      assert Version(next.versions, previous) == Version(next.versions, Get(next, key));
    }
  }

  // ---------------------------------------------------------------- runs

  datatype Op =
    | Updated(key: string, patch: Patch)
    | Adopted(key: string, draft: nat)
    | Cleared(key: string, submitted: nat)

  predicate Enabled(s: Store, op: Op) {
    match op
    case Updated(key, _) => Get(s, key) < |s.objects|
    case Adopted(_, draft) => draft < |s.objects|
    case Cleared(_, submitted) => submitted < |s.objects|
  }

  function Apply1(s: Store, op: Op): Store
    requires Enabled(s, op)
  {
    match op
    case Updated(key, patch) => Update(s, key, patch)
    case Adopted(key, draft) => Adopt(s, key, draft)
    case Cleared(key, submitted) => Clear(s, key, submitted)
  }

  /** The stores a run passes through, one operation at a time. */
  ghost predicate Run(states: seq<Store>, ops: seq<Op>) {
    && |states| == |ops| + 1
    && forall i {:trigger ops[i]} | 0 <= i < |ops| ::
         Enabled(states[i], ops[i]) && states[i + 1] == Apply1(states[i], ops[i])
  }

  lemma OpKeepsValid(s: Store, op: Op)
    requires Valid(s) && Enabled(s, op)
    ensures Valid(Apply1(s, op)) && |s.objects| <= |Apply1(s, op).objects|
    ensures forall d: nat | d < |s.objects| :: Version(Apply1(s, op).versions, d) == Version(s.versions, d)
  {
    match op
    case Updated(key, patch) => UpdateKeepsValid(s, key, patch);
    case Adopted(key, draft) => AdoptKeepsValid(s, key, draft);
    case Cleared(key, submitted) => ClearKeepsValid(s, key, submitted);
  }

  /** The draft under `key` was edited after the first `horizon` drafts were made. */
  ghost predicate EditedSince(s: Store, key: string, horizon: nat) {
    key in s.drafts && Version(s.versions, s.drafts[key]) >= horizon
  }

  lemma OpKeepsEdit(s: Store, op: Op, key: string, horizon: nat)
    requires Valid(s) && Enabled(s, op) && EditedSince(s, key, horizon) && horizon <= |s.objects|
    requires op.Cleared? ==> op.submitted < horizon
    ensures EditedSince(Apply1(s, op), key, horizon)
  {
    OpKeepsValid(s, op);
  }

  /**
   * An edit is never lost to an older submission: once the draft under a key has been edited, no sequence
   * of updates, adoptions and clears of drafts submitted before that edit removes it, even if the text is
   * deleted and typed again.
   */
  lemma {:induction false} EditSurvivesOldClears(states: seq<Store>, ops: seq<Op>, key: string, horizon: nat)
    requires Run(states, ops) && Valid(states[0]) && horizon <= |states[0].objects|
    requires EditedSince(states[0], key, horizon)
    requires forall op | op in ops && op.Cleared? :: op.submitted < horizon
    ensures EditedSince(states[|ops|], key, horizon)
    decreases |ops|
  {
    if ops != [] {
      assert ops[0] in ops && states[1] == Apply1(states[0], ops[0]);
      OpKeepsValid(states[0], ops[0]);
      OpKeepsEdit(states[0], ops[0], key, horizon);
      assert forall i | 0 <= i < |ops| - 1 :: ops[1..][i] == ops[i + 1];
      EditSurvivesOldClears(states[1..], ops[1..], key, horizon);
    }
  }

  /**
   * A draft that was under a key and is not there any more was taken by a clear of that key, and at that moment
   * the draft under it had the version that was submitted.
   */
  lemma {:induction false} OnlyItsOwnClearRemoves(states: seq<Store>, ops: seq<Op>, i: nat, j: nat, key: string)
    returns (k: nat)
    requires Run(states, ops) && i <= j <= |ops| && key in states[i].drafts && key !in states[j].drafts
    ensures i <= k < j && ops[k].Cleared? && ops[k].key == key
    ensures Has(states[k], key, ops[k].submitted)
    decreases j
  {
    assert states[j - 1 + 1] == Apply1(states[j - 1], ops[j - 1]);
    if key in states[j - 1].drafts {
      k := j - 1;
    } else {
      k := OnlyItsOwnClearRemoves(states, ops, i, j - 1, key);
    }
  }

  // ---------------------------------------------------------------- changes of scope

  function Retarget(scope: string): Patch {
    Patch(None, None, Some(References(scope, [])))
  }

  /** The scope of a draft without references is changed again and again. */
  function RetargetAll(s: Store, key: string, scopes: seq<string>): (r: Store)
    requires Valid(s)
    ensures Valid(r)
  {
    if scopes == [] then s
    else
      var before := RetargetAll(s, key, scopes[..|scopes| - 1]);
      UpdateKeepsValid(before, key, Retarget(scopes[|scopes| - 1]));
      Update(before, key, Retarget(scopes[|scopes| - 1]))
  }

  predicate SameScope(a: string, b: string) {
    a == b || a == "" || b == ""
  }

  /** No two neighbouring scopes differ, unless one of the two is blank. */
  ghost predicate Aligned(scopes: seq<string>) {
    forall i | 0 <= i < |scopes| - 1 :: SameScope(scopes[i], scopes[i + 1])
  }

  lemma AlignedGrows(front: seq<string>, last: string)
    requires front != []
    ensures Aligned(front + [last]) <==> Aligned(front) && SameScope(front[|front| - 1], last)
  {
    var all := front + [last];
    if Aligned(all) {
      assert SameScope(all[|front| - 1], all[|front| - 1 + 1]);
      forall i | 0 <= i < |front| - 1 ensures SameScope(front[i], front[i + 1]) {
        assert SameScope(all[i], all[i + 1]);
      }
    }
  }

  /** A chain of retargets leaves the content in the last scope, under the old version or one made in the chain. */
  ghost predicate Retargeted(s: Store, key: string, chain: seq<string>, r: Store)
    requires Valid(s) && key in s.drafts && Valid(r) && chain != []
  {
    && key in r.drafts && |s.objects| <= |r.objects|
    && r.objects[r.drafts[key]].references == References(chain[|chain| - 1], [])
    && (forall d: nat | d < |s.objects| :: Version(r.versions, d) == Version(s.versions, d))
    && (if Aligned(chain) then Version(r.versions, r.drafts[key]) == Version(s.versions, s.drafts[key])
        else Version(r.versions, r.drafts[key]) >= |s.objects|)
  }

  lemma RetargetOnce(s: Store, key: string, chain: seq<string>, r: Store, last: string)
    requires Valid(s) && key in s.drafts && Valid(r) && chain != [] && Retargeted(s, key, chain, r)
    ensures Valid(Update(r, key, Retarget(last)))
    ensures Retargeted(s, key, chain + [last], Update(r, key, Retarget(last)))
  {
    UpdateKeepsValid(r, key, Retarget(last));
    AlignedGrows(chain, last);
  }

  lemma {:induction false} RetargetsAre(s: Store, key: string, from: string, scopes: seq<string>)
    requires Valid(s) && key in s.drafts && s.objects[s.drafts[key]].references == References(from, [])
    ensures Retargeted(s, key, [from] + scopes, RetargetAll(s, key, scopes))
    decreases |scopes|
  {
    if scopes != [] {
      var front, last := scopes[..|scopes| - 1], scopes[|scopes| - 1];
      RetargetsAre(s, key, from, front);
      RetargetOnce(s, key, [from] + front, RetargetAll(s, key, front), last);
      assert [from] + scopes == [from] + front + [last];
    }
  }

  /**
   * A draft without references whose scope changes from `from` through `scopes` is still removed by the clear of
   * the draft first submitted if and only if no two neighbouring scopes differ without one of them being blank.
   */
  lemma RetargetedIsClearedIff(s: Store, key: string, from: string, scopes: seq<string>)
    requires Valid(s) && key in s.drafts && s.objects[s.drafts[key]].references == References(from, [])
    ensures key !in Clear(RetargetAll(s, key, scopes), key, s.drafts[key]).drafts <==> Aligned([from] + scopes)
  {
    RetargetsAre(s, key, from, scopes);
  }

  // ---------------------------------------------------------------- the store

  /** The store itself: one map of drafts and one weak map of versions, updated in place. */
  class DraftStore {
    var objects: seq<Content>
    var drafts: map<string, nat>
    var versions: map<nat, nat>

    ghost function State(): Store
      reads this
    {
      Store(objects, drafts, versions)
    }

    constructor ()
      ensures State() == INITIAL && Valid(State())
    {
      objects, drafts, versions := [BLANK], map[], map[];
    }

    method Read(key: string) returns (draft: nat)
      ensures draft == Get(State(), key)
    {
      draft := if key in drafts then drafts[key] else 0;
    }

    method SetDraft(key: string, patch: Patch)
      requires Valid(State())
      modifies this
      ensures Valid(State()) && State() == Update(old(State()), key, patch)
    {
      UpdateKeepsValid(State(), key, patch);
      var previous := Read(key);
      var content := Apply(objects[previous], patch);
      var next := |objects|;
      objects := objects + [content];
      var version := next;
      if SameContent(objects[previous], content) {
        version := if previous in versions then versions[previous] else previous;
      }
      versions := versions[next := version];
      drafts := drafts[key := next];
    }

    method TakeOver(key: string, draft: nat)
      requires Valid(State()) && draft < |objects|
      modifies this
      ensures Valid(State()) && State() == Adopt(old(State()), key, draft)
    {
      if key in drafts {
        return;
      }
      drafts := drafts[key := draft];
    }

    method Remove(key: string, submitted: nat)
      requires Valid(State())
      modifies this
      ensures Valid(State()) && State() == Clear(old(State()), key, submitted)
    {
      var current := Read(key);
      var now := if current in versions then versions[current] else current;
      var wanted := if submitted in versions then versions[submitted] else submitted;
      if now != wanted {
        return;
      }
      drafts := drafts - {key};
    }
  }
}

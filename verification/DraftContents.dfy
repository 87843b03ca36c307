/**
 * What is under a key: what an update stores, field by field, and what a run leaves. A field of the draft under a
 * key is the last one set there since the key was last empty or took a draft over.
 */
module DraftContents {
  import opened Options
  import opened Drafts

  // ---------------------------------------------------------------- one operation

  /** The content that readers of the key see; without a draft it is the empty one. */
  function ContentAt(s: Store, key: string): Content
    requires Get(s, key) < |s.objects|
  {
    s.objects[Get(s, key)]
  }

  /** An update stores the fields it is given and keeps the others, under this key and nowhere else. */
  lemma UpdateStores(s: Store, key: string, patch: Patch)
    requires Get(s, key) < |s.objects|
    ensures var next := Update(s, key, patch);
      && key in next.drafts && next.drafts[key] < |next.objects|
      && (Valid(s) && key in s.drafts ==> next.drafts[key] != s.drafts[key])
      && var was, now := ContentAt(s, key), next.objects[next.drafts[key]];
         && (patch.text.Some? ==> now.text == patch.text.value)
         && (patch.text.None? ==> now.text == was.text)
         && (patch.skillCreator.Some? ==> now.skillCreator == patch.skillCreator.value)
         && (patch.skillCreator.None? ==> now.skillCreator == was.skillCreator)
         && (patch.references.Some? ==> now.references == patch.references.value)
         && (patch.references.None? ==> now.references == was.references)
    ensures var next := Update(s, key, patch);
      && (forall k | k != key :: k in next.drafts <==> k in s.drafts)
      && (forall k | k != key && k in s.drafts :: next.drafts[k] == s.drafts[k])
      && s.objects <= next.objects
  {
  }

  /** A draft is taken over exactly where there is none, and no other key changes. */
  lemma AdoptStores(s: Store, key: string, draft: nat)
    ensures var next := Adopt(s, key, draft);
      && key in next.drafts && next.drafts[key] == (if key in s.drafts then s.drafts[key] else draft)
      && (forall k | k != key :: k in next.drafts <==> k in s.drafts)
      && (forall k | k != key && k in s.drafts :: next.drafts[k] == s.drafts[k])
      && next.objects == s.objects && next.versions == s.versions
  {
  }

  /** A clear empties the key exactly if the draft there has the version submitted, and no other key changes. */
  lemma ClearStores(s: Store, key: string, submitted: nat)
    ensures var next := Clear(s, key, submitted);
      && (key in next.drafts
          <==> key in s.drafts && Version(s.versions, s.drafts[key]) != Version(s.versions, submitted))
      && (forall k | k != key :: k in next.drafts <==> k in s.drafts)
      && (forall k | k in next.drafts :: next.drafts[k] == s.drafts[k])
      && next.objects == s.objects && next.versions == s.versions
  {
  }

  // ---------------------------------------------------------------- runs

  /** What each operation sets a field under the key to, if it does. */
  function Texts(ops: seq<Op>, key: string): (sets: seq<Option<string>>)
    ensures |sets| == |ops|
    ensures forall k | 0 <= k < |ops| ::
              sets[k] == if ops[k].Updated? && ops[k].key == key then ops[k].patch.text else None
  {
    seq(|ops|, k requires 0 <= k < |ops| =>
      if ops[k].Updated? && ops[k].key == key then ops[k].patch.text else None)
  }

  function Flags(ops: seq<Op>, key: string): (sets: seq<Option<Option<bool>>>)
    ensures |sets| == |ops|
    ensures forall k | 0 <= k < |ops| ::
              sets[k] == if ops[k].Updated? && ops[k].key == key then ops[k].patch.skillCreator else None
  {
    seq(|ops|, k requires 0 <= k < |ops| =>
      if ops[k].Updated? && ops[k].key == key then ops[k].patch.skillCreator else None)
  }

  function ReferenceSets(ops: seq<Op>, key: string): (sets: seq<Option<References>>)
    ensures |sets| == |ops|
    ensures forall k | 0 <= k < |ops| ::
              sets[k] == if ops[k].Updated? && ops[k].key == key then ops[k].patch.references else None
  {
    seq(|ops|, k requires 0 <= k < |ops| =>
      if ops[k].Updated? && ops[k].key == key then ops[k].patch.references else None)
  }

  /** `now` is the last value set from `i` to `j`, or `start` if none was. */
  ghost predicate IsLastSet<T>(sets: seq<Option<T>>, i: nat, j: nat, start: T, now: T)
    requires j <= |sets|
  {
    && (forall k | i <= k < j && sets[k].Some? && (forall m | k < m < j :: sets[m].None?) :: now == sets[k].value)
    && ((forall k | i <= k < j :: sets[k].None?) ==> now == start)
  }

  lemma LastSetNext<T>(sets: seq<Option<T>>, i: nat, j: nat, start: T, was: T, now: T)
    requires i <= j < |sets| && IsLastSet(sets, i, j, start, was)
    requires now == if sets[j].Some? then sets[j].value else was
    ensures IsLastSet(sets, i, j + 1, start, now)
  {
  }

  /** From `i` to `j` the key is neither emptied nor does it take a draft over. */
  ghost predicate Stays(states: seq<Store>, ops: seq<Op>, key: string, i: nat, j: nat)
    requires |states| == |ops| + 1 && j <= |ops|
  {
    forall k {:trigger ops[k]} | i <= k < j ::
      && (ops[k].Cleared? && key in states[k].drafts ==> key in states[k + 1].drafts)
      && (ops[k].Adopted? && ops[k].key == key ==> key in states[k].drafts)
  }

  /** The fields are the last ones set, or still those the stretch started with. */
  ghost predicate SaysLast(ops: seq<Op>, key: string, i: nat, j: nat, start: Content, now: Content)
    requires j <= |ops|
  {
    && IsLastSet(Texts(ops, key), i, j, start.text, now.text)
    && IsLastSet(Flags(ops, key), i, j, start.skillCreator, now.skillCreator)
    && IsLastSet(ReferenceSets(ops, key), i, j, start.references, now.references)
  }

  function Or<T>(next: Option<T>, was: T): T {
    if next.Some? then next.value else was
  }

  /** One step either stores its patch under the key or leaves the content alone. */
  ghost predicate Follows(ops: seq<Op>, key: string, j: nat, was: Content, now: Content)
    requires j < |ops|
  {
    && now.text == Or(Texts(ops, key)[j], was.text)
    && now.skillCreator == Or(Flags(ops, key)[j], was.skillCreator)
    && now.references == Or(ReferenceSets(ops, key)[j], was.references)
  }

  lemma StepFollows(s: Store, ops: seq<Op>, j: nat, key: string)
    requires j < |ops| && Valid(s) && Enabled(s, ops[j])
    requires ops[j].Cleared? && key in s.drafts ==> key in Apply1(s, ops[j]).drafts
    requires ops[j].Adopted? && ops[j].key == key ==> key in s.drafts
    ensures Get(Apply1(s, ops[j]), key) < |Apply1(s, ops[j]).objects|
    ensures Follows(ops, key, j, ContentAt(s, key), ContentAt(Apply1(s, ops[j]), key))
  {
    match ops[j]
    case Updated(k, patch) => UpdateStores(s, k, patch);
    case Adopted(k, draft) => AdoptStores(s, k, draft);
    case Cleared(k, submitted) => ClearStores(s, k, submitted);
  }

  lemma {:induction false} RunStaysValid(states: seq<Store>, ops: seq<Op>, n: nat)
    requires Run(states, ops) && Valid(states[0]) && n <= |ops|
    ensures Valid(states[n])
    decreases n
  {
    if n > 0 {
      RunStaysValid(states, ops, n - 1);
      StepIs(states, ops, n - 1);
      OpKeepsValid(states[n - 1], ops[n - 1]);
    }
  }

  lemma StepIs(states: seq<Store>, ops: seq<Op>, k: nat)
    requires Run(states, ops) && k < |ops|
    ensures Enabled(states[k], ops[k]) && states[k + 1] == Apply1(states[k], ops[k])
  {
  }

  lemma ValidGet(s: Store, key: string)
    requires Valid(s)
    ensures Get(s, key) < |s.objects|
    ensures key !in s.drafts ==> ContentAt(s, key) == Content("", None, References("", []))
  {
  }

  lemma {:induction false} LastSetOf<T>(sets: seq<Option<T>>, values: seq<T>, i: nat, j: nat)
    requires |values| == |sets| + 1 && i <= j <= |sets|
    requires forall k {:trigger sets[k]} | i <= k < j :: values[k + 1] == Or(sets[k], values[k])
    ensures IsLastSet(sets, i, j, values[i], values[j])
    decreases j
  {
    if i < j {
      LastSetOf(sets, values, i, j - 1);
      LastSetNext(sets, i, j - 1, values[i], values[j - 1], values[j]);
    }
  }

  /** The content follows the operations from `i` to `j`. */
  ghost predicate AllFollow(ops: seq<Op>, key: string, contents: seq<Content>, i: nat, j: nat)
    requires |contents| == |ops| + 1 && i <= j <= |ops|
  {
    forall k {:trigger ops[k]} | i <= k < j :: Follows(ops, key, k, contents[k], contents[k + 1])
  }

  lemma TextIsLastSet(ops: seq<Op>, key: string, contents: seq<Content>, i: nat, j: nat)
    requires |contents| == |ops| + 1 && i <= j <= |ops| && AllFollow(ops, key, contents, i, j)
    ensures IsLastSet(Texts(ops, key), i, j, contents[i].text, contents[j].text)
  {
    var values := seq(|contents|, k requires 0 <= k < |contents| => contents[k].text);
    forall k | i <= k < j ensures values[k + 1] == Or(Texts(ops, key)[k], values[k]) {
      assert ops[k] in ops;
    }
    LastSetOf(Texts(ops, key), values, i, j);
  }

  lemma FlagIsLastSet(ops: seq<Op>, key: string, contents: seq<Content>, i: nat, j: nat)
    requires |contents| == |ops| + 1 && i <= j <= |ops| && AllFollow(ops, key, contents, i, j)
    ensures IsLastSet(Flags(ops, key), i, j, contents[i].skillCreator, contents[j].skillCreator)
  {
    var values := seq(|contents|, k requires 0 <= k < |contents| => contents[k].skillCreator);
    forall k | i <= k < j ensures values[k + 1] == Or(Flags(ops, key)[k], values[k]) {
      assert ops[k] in ops;
    }
    LastSetOf(Flags(ops, key), values, i, j);
  }

  lemma ReferencesAreLastSet(ops: seq<Op>, key: string, contents: seq<Content>, i: nat, j: nat)
    requires |contents| == |ops| + 1 && i <= j <= |ops| && AllFollow(ops, key, contents, i, j)
    ensures IsLastSet(ReferenceSets(ops, key), i, j, contents[i].references, contents[j].references)
  {
    var values := seq(|contents|, k requires 0 <= k < |contents| => contents[k].references);
    forall k | i <= k < j ensures values[k + 1] == Or(ReferenceSets(ops, key)[k], values[k]) {
      assert ops[k] in ops;
    }
    LastSetOf(ReferenceSets(ops, key), values, i, j);
  }

  lemma RunFollows(states: seq<Store>, ops: seq<Op>, key: string, i: nat, j: nat, k: nat)
    requires Run(states, ops) && Valid(states[0]) && i <= k < j <= |ops| && Stays(states, ops, key, i, j)
    requires Get(states[k], key) < |states[k].objects| && Get(states[k + 1], key) < |states[k + 1].objects|
    ensures Follows(ops, key, k, ContentAt(states[k], key), ContentAt(states[k + 1], key))
  {
    RunStaysValid(states, ops, k);
    StepIs(states, ops, k);
    StepFollows(states[k], ops, k, key);
  }

  /** The contents under the key, moment by moment. */
  lemma ContentsOf(states: seq<Store>, ops: seq<Op>, key: string) returns (contents: seq<Content>)
    requires Run(states, ops) && Valid(states[0])
    ensures |contents| == |states|
    ensures forall k | 0 <= k < |states| ::
              Get(states[k], key) < |states[k].objects| && contents[k] == ContentAt(states[k], key)
  {
    forall k | 0 <= k < |states| ensures Get(states[k], key) < |states[k].objects| {
      RunStaysValid(states, ops, k);
      ValidGet(states[k], key);
    }
    contents := seq(|states|, k requires 0 <= k < |states| => ContentAt(states[k], key));
  }

  /**
   * While a key is neither emptied nor takes a draft over, every field of what is under it is the last one set
   * there, or else the one at the start; and under a key without a draft every field is empty.
   */
  lemma ContentIsLastSet(states: seq<Store>, ops: seq<Op>, key: string, i: nat, j: nat)
    requires Run(states, ops) && Valid(states[0]) && i <= j <= |ops| && Stays(states, ops, key, i, j)
    ensures Get(states[i], key) < |states[i].objects| && Get(states[j], key) < |states[j].objects|
    ensures SaysLast(ops, key, i, j, ContentAt(states[i], key), ContentAt(states[j], key))
    ensures key !in states[i].drafts ==> ContentAt(states[i], key) == Content("", None, References("", []))
  {
    var contents := ContentsOf(states, ops, key);
    forall k | i <= k < j ensures Follows(ops, key, k, contents[k], contents[k + 1]) {
      RunFollows(states, ops, key, i, j, k);
    }
    TextIsLastSet(ops, key, contents, i, j);
    FlagIsLastSet(ops, key, contents, i, j);
    ReferencesAreLastSet(ops, key, contents, i, j);
    RunStaysValid(states, ops, i);
    ValidGet(states[i], key);
  }

  /** A draft that is taken over is the one that was submitted, with all its fields. */
  lemma TakenOverIsWhole(states: seq<Store>, ops: seq<Op>, key: string, k: nat)
    requires Run(states, ops) && Valid(states[0]) && k < |ops|
    requires ops[k].Adopted? && ops[k].key == key && key !in states[k].drafts
    ensures key in states[k + 1].drafts && states[k + 1].drafts[key] == ops[k].draft < |states[k].objects|
    ensures states[k + 1].objects == states[k].objects
  {
    StepIs(states, ops, k);
    AdoptStores(states[k], key, ops[k].draft);
  }
}

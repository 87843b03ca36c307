/** Splitting a log into turns, and each turn into a folded process and a visible part. */
module Turns {
  import opened Options
  import opened Sequences
  import opened Protocol
  import Transcript
  import Projection
  import opened Grouping

  // ---------------------------------------------------------------- turn groups

  predicate StartsTurn(e: Event) {
    e.event.User?
  }

  function AddEvent(groups: seq<seq<Event>>, e: Event): seq<seq<Event>> {
    if StartsTurn(e) || groups == [] then groups + [[e]]
    else groups[..|groups| - 1] + [groups[|groups| - 1] + [e]]
  }

  /** A new group at every user event, and at the first event whatever it is. */
  function TurnGroups(events: seq<Event>): seq<seq<Event>> {
    if events == [] then [] else AddEvent(TurnGroups(events[..|events| - 1]), events[|events| - 1])
  }

  function Concat<T>(parts: seq<seq<T>>): seq<T> {
    if parts == [] then [] else Concat(parts[..|parts| - 1]) + parts[|parts| - 1]
  }

  lemma ConcatSnoc<T>(parts: seq<seq<T>>, part: seq<T>)
    ensures Concat(parts + [part]) == Concat(parts) + part
  {
    assert (parts + [part])[..|parts|] == parts;
  }

  /** Groups are not empty, and user events stand at the front of every group after the first and nowhere else. */
  ghost predicate ProperTurns(groups: seq<seq<Event>>) {
    && (forall i | 0 <= i < |groups| :: groups[i] != [])
    && (forall i | 1 <= i < |groups| :: StartsTurn(groups[i][0]))
    && (forall i, j | 0 <= i < |groups| && 1 <= j < |groups[i]| :: !StartsTurn(groups[i][j]))
  }

  lemma AddEventConcat(groups: seq<seq<Event>>, e: Event)
    ensures Concat(AddEvent(groups, e)) == Concat(groups) + [e]
  {
    if StartsTurn(e) || groups == [] {
      ConcatSnoc(groups, [e]);
    } else {
      var front, last := groups[..|groups| - 1], groups[|groups| - 1];
      ConcatSnoc(front, last + [e]);
    }
  }

  lemma AddEventProper(groups: seq<seq<Event>>, e: Event)
    requires ProperTurns(groups)
    ensures ProperTurns(AddEvent(groups, e))
  {
  }

  lemma {:induction false} TurnGroupsCoverTheLog(events: seq<Event>)
    ensures Concat(TurnGroups(events)) == events
    ensures ProperTurns(TurnGroups(events))
  {
    if events != [] {
      var n := |events| - 1;
      TurnGroupsCoverTheLog(events[..n]);
      AddEventConcat(TurnGroups(events[..n]), events[n]);
      AddEventProper(TurnGroups(events[..n]), events[n]);
      assert events == events[..n] + [events[n]];
    }
  }

  /** Pushing an empty group first and then the event into the last group is the same. */
  lemma AddEventInPlace(groups: seq<seq<Event>>, e: Event)
    ensures var ready := if StartsTurn(e) || groups == [] then groups + [[]] else groups;
      ready[..|ready| - 1] + [ready[|ready| - 1] + [e]] == AddEvent(groups, e)
  {
    assert [] + [e] == [e];
  }

  method GroupTurns(events: seq<Event>) returns (groups: seq<seq<Event>>)
    ensures groups == TurnGroups(events)
  {
    groups := [];
    for i := 0 to |events|
      invariant groups == TurnGroups(events[..i])
    {
      assert events[..i + 1][..i] == events[..i];
      AddEventInPlace(groups, events[i]);
      if StartsTurn(events[i]) || groups == [] {
        groups := groups + [[]];
      }
      groups := groups[..|groups| - 1] + [groups[|groups| - 1] + [events[i]]];
    }
    assert events[..|events|] == events;
  }

  // ---------------------------------------------------------------- segments

  datatype Segment = Segment(process: bool, items: seq<Activity>)

  function PushSegment(segments: seq<Segment>, process: bool, item: Activity): seq<Segment> {
    var n := |segments| - 1;
    if n >= 0 && segments[n].process == process then
      segments[..n] + [Segment(process, segments[n].items + [item])]
    else segments + [Segment(process, [item])]
  }

  /** `fold[i]` says whether item `i` is folded away. */
  function Segments(items: seq<Activity>, fold: seq<bool>): seq<Segment>
    requires |fold| == |items|
  {
    if items == [] then []
    else
      var n := |items| - 1;
      PushSegment(Segments(items[..n], fold[..n]), fold[n], items[n])
  }

  function SegmentItems(segments: seq<Segment>): seq<Activity> {
    if segments == [] then [] else SegmentItems(segments[..|segments| - 1]) + segments[|segments| - 1].items
  }

  ghost predicate Alternating(segments: seq<Segment>) {
    && (forall i | 0 <= i < |segments| :: segments[i].items != [])
    && (forall i | 0 <= i < |segments| - 1 :: segments[i].process != segments[i + 1].process)
  }

  lemma SegmentsSnoc(segments: seq<Segment>, segment: Segment)
    ensures SegmentItems(segments + [segment]) == SegmentItems(segments) + segment.items
  {
    assert (segments + [segment])[..|segments|] == segments;
  }

  lemma PushSegmentAlternates(segments: seq<Segment>, process: bool, item: Activity)
    requires Alternating(segments)
    ensures Alternating(PushSegment(segments, process, item))
  {
  }

  lemma PushSegmentAppends(segments: seq<Segment>, process: bool, item: Activity)
    ensures SegmentItems(PushSegment(segments, process, item)) == SegmentItems(segments) + [item]
  {
    var n := |segments| - 1;
    if n >= 0 && segments[n].process == process {
      SegmentsSnoc(segments[..n], Segment(process, segments[n].items + [item]));
    } else {
      SegmentsSnoc(segments, Segment(process, [item]));
    }
  }

  lemma {:induction false} SegmentsAlternate(items: seq<Activity>, fold: seq<bool>)
    requires |fold| == |items|
    ensures Alternating(Segments(items, fold))
  {
    if items != [] {
      var n := |items| - 1;
      SegmentsAlternate(items[..n], fold[..n]);
      PushSegmentAlternates(Segments(items[..n], fold[..n]), fold[n], items[n]);
    }
  }

  lemma SegmentsGrow(items: seq<Activity>, fold: seq<bool>, item: Activity, flag: bool)
    requires |fold| == |items|
    ensures Segments(items + [item], fold + [flag]) == PushSegment(Segments(items, fold), flag, item)
  {
    assert (items + [item])[..|items|] == items && (fold + [flag])[..|fold|] == fold;
  }

  ghost predicate Covers(items: seq<Activity>, fold: seq<bool>) {
    |fold| == |items| && SegmentItems(Segments(items, fold)) == items
  }

  lemma CoverGrows(items: seq<Activity>, fold: seq<bool>, item: Activity, flag: bool)
    requires Covers(items, fold)
    ensures Covers(items + [item], fold + [flag])
  {
    SegmentsGrow(items, fold, item, flag);
    PushSegmentAppends(Segments(items, fold), flag, item);
  }

  lemma {:induction false} PrefixCovers(items: seq<Activity>, fold: seq<bool>, n: nat)
    requires |fold| == |items| && n <= |items|
    ensures Covers(items[..n], fold[..n])
  {
    if n > 0 {
      var front, flags, item, flag := items[..n - 1], fold[..n - 1], items[n - 1], fold[n - 1];
      PrefixCovers(items, fold, n - 1);
      PrefixGrows(items, n - 1);
      PrefixGrows(fold, n - 1);
      CoverGrows(front, flags, item, flag);
    }
  }

  /** Segments keep every item, in order. */
  lemma SegmentsCoverTheItems(items: seq<Activity>, fold: seq<bool>)
    requires |fold| == |items|
    ensures SegmentItems(Segments(items, fold)) == items
  {
    PrefixCovers(items, fold, |items|);
    assert items[..|items|] == items && fold[..|items|] == fold;
  }

  method ActivitySegments(items: seq<Activity>, fold: seq<bool>) returns (segments: seq<Segment>)
    requires |fold| == |items|
    ensures segments == Segments(items, fold)
  {
    segments := [];
    for i := 0 to |items|
      invariant segments == Segments(items[..i], fold[..i])
    {
      assert items[..i + 1][..i] == items[..i] && fold[..i + 1][..i] == fold[..i];
      var n := |segments| - 1;
      if n >= 0 && segments[n].process == fold[i] {
        segments := segments[..n] + [segments[n].(items := segments[n].items + [items[i]])];
      } else {
        segments := segments + [Segment(fold[i], [items[i]])];
      }
    }
    assert items[..|items|] == items && fold[..|fold|] == fold;
  }

  /** The items of all segments of one kind, in order. */
  function PartOf(segments: seq<Segment>, process: bool): seq<Activity> {
    if segments == [] then []
    else
      var n := |segments| - 1;
      PartOf(segments[..n], process) + (if segments[n].process == process then segments[n].items else [])
  }

  /** The items whose flag is `process`, in order. */
  function Select(items: seq<Activity>, fold: seq<bool>, process: bool): seq<Activity>
    requires |fold| == |items|
  {
    if items == [] then []
    else
      var n := |items| - 1;
      Select(items[..n], fold[..n], process) + (if fold[n] == process then [items[n]] else [])
  }

  lemma PartOfPush(segments: seq<Segment>, flag: bool, item: Activity, process: bool)
    ensures PartOf(PushSegment(segments, flag, item), process)
            == PartOf(segments, process) + (if flag == process then [item] else [])
  {
    var n := |segments| - 1;
    var pushed := PushSegment(segments, flag, item);
    if n >= 0 && segments[n].process == flag {
      assert pushed[..n] == segments[..n];
    } else {
      assert pushed[..n + 1] == segments;
    }
  }

  lemma {:induction false} PartOfSegments(items: seq<Activity>, fold: seq<bool>, process: bool)
    requires |fold| == |items|
    ensures PartOf(Segments(items, fold), process) == Select(items, fold, process)
  {
    if items != [] {
      var n := |items| - 1;
      PartOfSegments(items[..n], fold[..n], process);
      PartOfPush(Segments(items[..n], fold[..n]), fold[n], items[n], process);
    }
  }

  // ---------------------------------------------------------------- what a turn folds

  const MODEL_PREFIX := "\U{6A21}\U{578B}\U{FF1A}"
  const PROVIDER_PREFIX := "Provider\U{FF1A}"
  const MODEL_INFIX := " \U{B7} \U{6A21}\U{578B}\U{FF1A}"
  const SKILL_PREFIX := "\U{5DF2}\U{52A0}\U{8F7D} Skill\U{FF1A}"

  /** The code points that end a line for a regular expression dot. */
  predicate IsLineEnd(c: char) {
    c == '\n' || c == '\r' || c == '\U{2028}' || c == '\U{2029}'
  }

  /** The code points that a regular expression counts as white space. */
  predicate IsSpace(c: char) {
    IsLineEnd(c) || c == '\t' || c == ' ' || c == '\U{B}' || c == '\U{C}' || c == '\U{A0}' || c == '\U{1680}'
    || '\U{2000}' <= c <= '\U{200A}' || c == '\U{202F}' || c == '\U{205F}' || c == '\U{3000}' || c == '\U{FEFF}'
  }

  /** A provider name without line breaks ends at `i`, and the model follows. */
  predicate ModelFollows(text: string, i: nat)
    requires |PROVIDER_PREFIX| <= i <= |text|
  {
    MODEL_INFIX <= text[i..] && forall c | c in text[|PROVIDER_PREFIX|..i] :: !IsLineEnd(c)
  }

  /** A notice naming the model in use, which turns do not show. */
  predicate IsModelNotice(text: string) {
    MODEL_PREFIX <= text
    || (PROVIDER_PREFIX <= text && exists i | |PROVIDER_PREFIX| <= i <= |text| :: ModelFollows(text, i))
  }

  predicate IsSkillNotice(text: string) {
    SKILL_PREFIX <= text && |SKILL_PREFIX| < |text| && forall c | c in text[|SKILL_PREFIX|..] :: !IsSpace(c)
  }

  predicate IsTool(row: Activity) {
    row.Single? || row.Group?
  }

  predicate IsAssistant(row: Activity) {
    row.Plain? && row.item.AssistantItem?
  }

  predicate IsProcessActivity(row: Activity) {
    IsAssistant(row) || IsTool(row)
    || (row.Plain? && row.item.EventItem?
        && (row.item.value.Progress? || row.item.value.Usage?
            || (row.item.value.Notice? && !IsSkillNotice(row.item.value.text))))
  }

  /** A row that the final reply cannot reach across. */
  predicate IsBarrier(row: Activity) {
    (row.Plain? && row.item.UserItem?) || IsTool(row) || row.Asked?
  }

  /** An approval or question nobody has settled. */
  predicate IsUnresolved(row: Activity) {
    (row.Plain? || row.Asked?) && row.item.EventItem?
    && (row.item.value.Approval? || row.item.value.Question?) && !row.item.resolved
  }

  /** The position just after the last barrier. */
  function AfterBarrier(items: seq<Activity>): (b: nat)
    ensures b <= |items|
    ensures forall i | b <= i < |items| :: !IsBarrier(items[i])
    ensures b > 0 ==> IsBarrier(items[b - 1])
  {
    if items == [] then 0
    else if IsBarrier(items[|items| - 1]) then |items|
    else AfterBarrier(items[..|items| - 1])
  }

  function Assistants(items: seq<Activity>): (replies: seq<Activity>)
    ensures forall r | r in replies :: r in items && IsAssistant(r)
  {
    if items == [] then []
    else
      var n := |items| - 1;
      assert items == items[..n] + [items[n]];
      Assistants(items[..n]) + (if IsAssistant(items[n]) then [items[n]] else [])
  }

  function FinalReply(items: seq<Activity>): (reply: seq<Activity>)
    ensures forall r | r in reply :: r in items && IsAssistant(r)
  {
    Assistants(items[AfterBarrier(items)..])
  }

  method FinalReplyItems(items: seq<Activity>) returns (reply: seq<Activity>)
    ensures reply == FinalReply(items)
  {
    var barrier := -1;
    for i := 0 to |items|
      invariant barrier == AfterBarrier(items[..i]) - 1
    {
      assert items[..i + 1][..i] == items[..i];
      if IsBarrier(items[i]) {
        barrier := i;
      }
    }
    assert items[..|items|] == items;
    var tail := items[barrier + 1..];
    reply := [];
    for i := 0 to |tail|
      invariant reply == Assistants(tail[..i])
    {
      assert tail[..i + 1][..i] == tail[..i];
      if IsAssistant(tail[i]) {
        reply := reply + [tail[i]];
      }
    }
    assert tail[..|tail|] == tail;
  }

  // ---------------------------------------------------------------- one turn

  /** What a confirmed reply is shown with: the key of its last row, its text, and when the turn ended. */
  datatype Final = Final(key: nat, text: string, at: int)

  /** `key` names the session and the first event of the turn. */
  datatype Turn = Turn(
    key: Option<(string, nat)>,
    user: Option<Item>,
    status: Option<SessionStatus>,
    hasFinal: bool,
    stopped: bool,
    reply: seq<Activity>,
    final: Option<Final>,
    items: seq<Activity>,
    segments: seq<Segment>)

  /** The last state event of the turn. */
  function LastStateEvent(events: seq<Event>): (last: Option<Event>)
    ensures last.Some? ==> last.value in events && last.value.event.State?
    ensures last.None? ==> forall e | e in events :: !e.event.State?
  {
    if events == [] then None
    else
      var n := |events| - 1;
      assert events == events[..n] + [events[n]];
      if events[n].event.State? then Some(events[n]) else LastStateEvent(events[..n])
  }

  function LastState(events: seq<Event>): Option<SessionStatus> {
    var last := LastStateEvent(events);
    if last.Some? then Some(last.value.event.status) else None
  }

  /** The paragraphs of a reply, with an empty line between them. */
  function ReplyText(reply: seq<Activity>): string
    requires forall r | r in reply :: IsAssistant(r)
  {
    if reply == [] then ""
    else
      var n := |reply| - 1;
      assert reply[n] in reply && IsAssistant(reply[n]);
      (if n == 0 then "" else ReplyText(reply[..n]) + "\n\n") + reply[n].item.text
  }

  function FinalOf(hasFinal: bool, items: seq<Activity>, end: Option<Event>): Option<Final> {
    var reply := FinalReply(items);
    if hasFinal && reply != [] && end.Some? then
      assert reply[|reply| - 1] in reply;
      Some(Final(reply[|reply| - 1].item.key, ReplyText(reply), end.value.at))
    else None
  }

  predicate IsHiddenNotice(row: Activity) {
    row.Plain? && row.item.EventItem? && row.item.value.Notice? && IsModelNotice(row.item.value.text)
  }

  predicate IsStoppedState(row: Activity) {
    row.Plain? && row.item.EventItem? && row.item.value.State? && row.item.value.status == Stopped
  }

  function Without(items: seq<Activity>, drop: Activity -> bool): (kept: seq<Activity>)
    ensures forall r | r in kept :: r in items && !drop(r)
    ensures forall r | r in items && !drop(r) :: r in kept
  {
    if items == [] then []
    else
      var n := |items| - 1;
      assert items == items[..n] + [items[n]];
      Without(items[..n], drop) + (if drop(items[n]) then [] else [items[n]])
  }

  /** Position of the final reply in the turn, or -1 when the turn has no confirmed final reply. */
  function FinalIndex(items: seq<Activity>): (i: int)
    ensures -1 <= i < |items|
  {
    var reply := FinalReply(items);
    if reply == [] then -1 else assert reply[0] in reply; IndexOf(items, reply[0])
  }

  function HasFinal(user: bool, status: Option<SessionStatus>, items: seq<Activity>): bool {
    user && status == Some(Finished) && FinalIndex(items) >= 0 && !(exists r | r in items :: IsUnresolved(r))
  }

  function Folds(stopped: bool, hasFinal: bool, finalIndex: int, row: Activity, i: nat): bool {
    if stopped then IsTool(row) else hasFinal && i < finalIndex && IsProcessActivity(row)
  }

  function FoldFlags(stopped: bool, hasFinal: bool, items: seq<Activity>): (fold: seq<bool>)
    ensures |fold| == |items|
    ensures forall i | 0 <= i < |items| :: fold[i] == Folds(stopped, hasFinal, FinalIndex(items), items[i], i)
  {
    seq(|items|, i requires 0 <= i < |items| => Folds(stopped, hasFinal, FinalIndex(items), items[i], i))
  }

  /** The turn whose rows, after its own message, are `body`. */
  function TurnWith(events: seq<Event>, user: Option<Item>, body: seq<Activity>): Turn {
    var status := LastState(events);
    var stopped := status == Some(Stopped);
    var items := if stopped then Without(body, IsStoppedState) else body;
    var hasFinal := HasFinal(user.Some?, status, items);
    Turn(if events == [] then None else Some((events[0].sessionId, events[0].seqNo)),
         user, status, hasFinal, stopped, FinalReply(items), FinalOf(hasFinal, items, LastStateEvent(events)),
         items, Segments(items, FoldFlags(stopped, hasFinal, items)))
  }

  /** One group of events as a turn; `receipts` are those of the whole log. */
  function TurnOf(events: seq<Event>, receipts: Transcript.Receipts): Turn {
    var rows := Without(Display(Transcript.Terminals(events), Transcript.Transcript(events, receipts)), IsHiddenNotice);
    if rows != [] && rows[0].Plain? && Projection.EndsTurn(rows[0].item) then
      TurnWith(events, Some(rows[0].item), rows[1..])
    else TurnWith(events, None, rows)
  }

  method Map<A, B>(items: seq<A>, f: A -> B) returns (images: seq<B>)
    ensures |images| == |items| && forall i | 0 <= i < |items| :: images[i] == f(items[i])
  {
    images := [];
    for i := 0 to |items|
      invariant |images| == i && forall j | 0 <= j < i :: images[j] == f(items[j])
    {
      images := images + [f(items[i])];
    }
  }

  method TurnTranscript(events: seq<Event>) returns (turns: seq<Turn>)
    ensures |turns| == |TurnGroups(events)|
    ensures forall i | 0 <= i < |turns| ::
              turns[i] == TurnOf(TurnGroups(events)[i], Transcript.QueuedInputReceipts(events))
  {
    var receipts := Transcript.QueuedInputReceipts(events);
    var groups := GroupTurns(events);
    turns := Map(groups, group => TurnOf(group, receipts));
  }

  // ---------------------------------------------------------------- what turns promise

  function SegmentsOf(stopped: bool, hasFinal: bool, items: seq<Activity>): seq<Segment> {
    Segments(items, FoldFlags(stopped, hasFinal, items))
  }

  lemma {:induction false} SelectIs(items: seq<Activity>, fold: seq<bool>, process: bool, row: Activity)
    requires |fold| == |items|
    ensures row in Select(items, fold, process)
            <==> exists i :: 0 <= i < |items| && items[i] == row && fold[i] == process
  {
    if items != [] {
      var n := |items| - 1;
      SelectIs(items[..n], fold[..n], process, row);
      if row in Select(items[..n], fold[..n], process) {
        var i :| 0 <= i < n && items[..n][i] == row && fold[..n][i] == process;
        assert items[i] == row && fold[i] == process;
      }
      if i :| 0 <= i < |items| && items[i] == row && fold[i] == process {
        if i < n {
          assert items[..n][i] == row && fold[..n][i] == process;
        }
      }
    }
  }

  /** A row is in the process, or in the visible part, exactly when one of its places is folded, or not. */
  lemma PartIs(stopped: bool, hasFinal: bool, items: seq<Activity>, process: bool, row: Activity)
    ensures row in PartOf(SegmentsOf(stopped, hasFinal, items), process)
            <==> exists i :: 0 <= i < |items| && items[i] == row
                             && Folds(stopped, hasFinal, FinalIndex(items), items[i], i) == process
  {
    var fold := FoldFlags(stopped, hasFinal, items);
    PartOfSegments(items, fold, process);
    SelectIs(items, fold, process, row);
    if i :| 0 <= i < |items| && items[i] == row && Folds(stopped, hasFinal, FinalIndex(items), items[i], i) == process {
      assert fold[i] == process;
    }
  }

  /** Folding loses nothing and keeps the order. */
  lemma FoldingKeepsEverything(stopped: bool, hasFinal: bool, items: seq<Activity>)
    ensures SegmentItems(SegmentsOf(stopped, hasFinal, items)) == items
    ensures Alternating(SegmentsOf(stopped, hasFinal, items))
  {
    SegmentsCoverTheItems(items, FoldFlags(stopped, hasFinal, items));
    SegmentsAlternate(items, FoldFlags(stopped, hasFinal, items));
  }

  /** An approval or a question is never folded, settled or not. */
  lemma AsksStayVisible(stopped: bool, hasFinal: bool, items: seq<Activity>, row: Activity)
    requires row in items && (row.Plain? || row.Asked?) && row.item.EventItem?
    requires row.item.value.Approval? || row.item.value.Question?
    ensures row in PartOf(SegmentsOf(stopped, hasFinal, items), false)
    ensures row !in PartOf(SegmentsOf(stopped, hasFinal, items), true)
  {
    PartIs(stopped, hasFinal, items, true, row);
    PartIs(stopped, hasFinal, items, false, row);
  }

  /** A stopped turn folds its tools and nothing else. */
  lemma StoppedTurnFoldsTools(hasFinal: bool, items: seq<Activity>, row: Activity)
    ensures row in PartOf(SegmentsOf(true, hasFinal, items), true) <==> row in items && IsTool(row)
  {
    PartIs(true, hasFinal, items, true, row);
  }

  /** A turn that is neither stopped nor confirmed complete with a reply folds nothing. */
  lemma UnconfirmedTurnFoldsNothing(items: seq<Activity>, row: Activity)
    ensures row !in PartOf(SegmentsOf(false, false, items), true)
  {
    PartIs(false, false, items, true, row);
  }

  lemma {:induction false} SelectSuffix(items: seq<Activity>, fold: seq<bool>, k: nat)
    requires |fold| == |items| && k <= |items|
    requires forall i | k <= i < |items| :: !fold[i]
    ensures Select(items, fold, false) == Select(items[..k], fold[..k], false) + items[k..]
    decreases |items|
  {
    if k == |items| {
      assert items[..k] == items && fold[..k] == fold;
    } else {
      var n := |items| - 1;
      SelectSuffix(items[..n], fold[..n], k);
      assert items[..n][..k] == items[..k] && fold[..n][..k] == fold[..k];
      assert items[..n][k..] + [items[n]] == items[k..];
    }
  }

  lemma AssistantsGrow(items: seq<Activity>, item: Activity)
    ensures Assistants(items + [item]) == Assistants(items) + (if IsAssistant(item) then [item] else [])
  {
    assert (items + [item])[..|items|] == items;
  }

  lemma {:induction false} NoAssistants(items: seq<Activity>)
    requires forall i | 0 <= i < |items| :: !IsAssistant(items[i])
    ensures Assistants(items) == []
  {
    if items != [] {
      NoAssistants(items[..|items| - 1]);
    }
  }

  /** Rows before the first assistant row do not matter. */
  lemma {:induction false} AssistantsAfter(front: seq<Activity>, rest: seq<Activity>)
    requires forall i | 0 <= i < |front| :: !IsAssistant(front[i])
    ensures Assistants(front + rest) == Assistants(rest)
    decreases |rest|
  {
    if rest == [] {
      NoAssistants(front);
      assert front + rest == front;
    } else {
      var body, last := rest[..|rest| - 1], rest[|rest| - 1];
      AssistantsAfter(front, body);
      AssistantsGrow(front + body, last);
      AssistantsGrow(body, last);
      assert rest == body + [last] && front + rest == (front + body) + [last];
    }
  }

  lemma {:induction false} FirstAssistant(items: seq<Activity>) returns (p: nat)
    requires Assistants(items) != []
    ensures p < |items| && items[p] == Assistants(items)[0] && IsAssistant(items[p])
    ensures forall i | 0 <= i < p :: !IsAssistant(items[i])
    decreases |items|
  {
    var n := |items| - 1;
    if Assistants(items[..n]) != [] {
      p := FirstAssistant(items[..n]);
    } else {
      p := n;
      forall i | 0 <= i < n ensures !IsAssistant(items[i]) {
        if IsAssistant(items[i]) {
          AssistantIsKept(items[..n], i);
        }
      }
    }
  }

  lemma {:induction false} AssistantIsKept(items: seq<Activity>, i: nat)
    requires i < |items| && IsAssistant(items[i])
    ensures items[i] in Assistants(items)
    decreases |items|
  {
    if i < |items| - 1 {
      AssistantIsKept(items[..|items| - 1], i);
    }
  }

  lemma RepliesStart(items: seq<Activity>) returns (p: nat)
    requires Assistants(items) != []
    ensures p < |items| && items[p] == Assistants(items)[0] && Assistants(items[p..]) == Assistants(items)
  {
    p := FirstAssistant(items);
    AssistantsAfter(items[..p], items[p..]);
    assert items == items[..p] + items[p..];
  }

  lemma FinalReplyStarts(items: seq<Activity>) returns (p: nat)
    requires FinalReply(items) != []
    ensures AfterBarrier(items) <= p < |items| && items[p] == FinalReply(items)[0]
    ensures Assistants(items[p..]) == FinalReply(items)
  {
    var b := AfterBarrier(items);
    var q := RepliesStart(items[b..]);
    p := b + q;
    assert items[b..][q..] == items[p..];
  }

  /** The final reply starts at `FinalIndex`: from there on the assistant rows are the whole reply. */
  lemma FinalIndexIsTheReply(items: seq<Activity>)
    requires Distinct(items) && FinalReply(items) != []
    ensures FinalIndex(items) >= AfterBarrier(items)
    ensures Assistants(items[FinalIndex(items)..]) == FinalReply(items)
  {
    var p := FinalReplyStarts(items);
    var k := FinalIndex(items);
    assert items[k] == items[p];
  }

  /**
   * With a confirmed final reply the visible part ends with everything from that reply on, and the
   * assistant rows of that ending are exactly the reply: none of it is folded and none is missing.
   */
  lemma FinalReplyIsVisible(items: seq<Activity>)
    requires Distinct(items) && FinalReply(items) != []
    ensures exists front :: PartOf(SegmentsOf(false, true, items), false) == front + items[FinalIndex(items)..]
    ensures Assistants(items[FinalIndex(items)..]) == FinalReply(items)
  {
    var fold, k := FoldFlags(false, true, items), FinalIndex(items);
    FinalIndexIsTheReply(items);
    PartOfSegments(items, fold, false);
    SelectSuffix(items, fold, k);
  }
}

/**
 * What a displayed turn says about its events: which rows are folded, how the turn ended, and with what its
 * confirmed reply is shown.
 */
module TurnFolds {
  import opened Options
  import opened Protocol
  import opened Sequences
  import Transcript
  import Projection
  import opened Grouping
  import RowOrder
  import opened Turns
  import opened TurnTheorems
  import opened ConfirmedTurns

  // ---------------------------------------------------------------- events that have no row

  /** Progress and usage events. */
  predicate IsMeter(row: Item) {
    row.EventItem? && (row.value.Progress? || row.value.Usage?)
  }

  lemma AddsNoMeter(index: Transcript.Index, draft: Transcript.Draft, e: Event, row: Item)
    requires forall id | id in index.changes :: index.changes[id].TurnChanges?
    requires row in Transcript.Add(index, draft, e).items && IsMeter(row)
    ensures row in draft.items
  {
  }

  lemma {:induction false} BuildsNoMeter(index: Transcript.Index, events: seq<Event>, row: Item)
    requires forall id | id in index.changes :: index.changes[id].TurnChanges?
    requires IsMeter(row)
    ensures row !in Transcript.Build(index, events).items
    decreases |events|
  {
    if events != [] {
      var front, last := events[..|events| - 1], events[|events| - 1];
      BuildsNoMeter(index, front, row);
      if row in Transcript.Build(index, events).items {
        AddsNoMeter(index, Transcript.Build(index, front), last, row);
      }
    }
  }

  /** No row shows a progress or usage event. */
  lemma MetersHaveNoRow(events: seq<Event>, receipts: Transcript.Receipts, row: Item)
    requires IsMeter(row)
    ensures row !in TurnItems(events, receipts)
  {
    var index := Transcript.IndexOf(events, receipts);
    BuildsNoMeter(index, events, row);
    KeepRowsIs(Transcript.Build(index, events).items, row);
  }

  // ---------------------------------------------------------------- the fold

  /** What the process part of a confirmed turn is made of. */
  predicate IsWork(row: Activity) {
    || (row.Plain? && row.item.AssistantItem?)
    || row.Single? || row.Group?
    || (row.Plain? && row.item.EventItem? && row.item.value.Notice? && !IsSkillNotice(row.item.value.text))
  }

  lemma WorkIsProcess(events: seq<Event>, receipts: Transcript.Receipts, row: Activity)
    requires row in TurnOf(events, receipts).items
    ensures IsProcessActivity(row) <==> IsWork(row)
  {
    TurnRowIs(events, receipts, row);
    if row.Plain? && IsMeter(row.item) {
      ShownIsItem(events, receipts, row);
      MetersHaveNoRow(events, receipts, row.item);
    }
  }

  /** In rows with growing keys, standing before another row is having the smaller key. */
  lemma BeforeIsSmaller(rows: seq<Activity>, first: Activity, i: nat)
    requires RowOrder.KeysGrow(rows) && first in rows && i < |rows|
    ensures i < IndexOf(rows, first) <==> RowOrder.ActivityKey(rows[i]) < RowOrder.ActivityKey(first)
  {
    var k := IndexOf(rows, first);
    if k < i {
      assert RowOrder.ActivityKey(rows[k]) < RowOrder.ActivityKey(rows[i]);
    }
  }

  lemma ReplyIsThere(rows: seq<Activity>)
    requires FinalReply(rows) != []
    ensures FinalReply(rows)[0] in rows && FinalIndex(rows) == IndexOf(rows, FinalReply(rows)[0])
  {
    assert FinalReply(rows)[0] in FinalReply(rows);
  }

  /** The rows before the reply that tell of the work. */
  predicate IsEarlierWork(rows: seq<Activity>, row: Activity) {
    && IsWork(row) && FinalReply(rows) != []
    && RowOrder.ActivityKey(row) < RowOrder.ActivityKey(FinalReply(rows)[0])
  }

  lemma FoldedIs(rows: seq<Activity>, row: Activity)
    requires RowOrder.KeysGrow(rows) && FinalReply(rows) != []
    requires row in rows ==> (IsProcessActivity(row) <==> IsWork(row))
    ensures row in PartOf(SegmentsOf(false, true, rows), true) <==> row in rows && IsEarlierWork(rows, row)
  {
    PartIs(false, true, rows, true, row);
    ReplyIsThere(rows);
    forall i: nat | i < |rows| && rows[i] == row
      ensures Folds(false, true, FinalIndex(rows), rows[i], i) <==> IsEarlierWork(rows, row)
    {
      BeforeIsSmaller(rows, FinalReply(rows)[0], i);
    }
  }

  lemma SegmentsOfTurn(events: seq<Event>, receipts: Transcript.Receipts)
    ensures var turn := TurnOf(events, receipts);
      turn.segments == SegmentsOf(turn.stopped, turn.hasFinal, turn.items) && turn.reply == FinalReply(turn.items)
    ensures var turn := TurnOf(events, receipts); turn.hasFinal ==> turn.reply != [] && !turn.stopped
  {
  }

  /** What a turn folds: its tools if it was stopped, the work before the reply if it is confirmed, else nothing. */
  lemma TurnFoldsIff(events: seq<Event>, receipts: Transcript.Receipts, row: Activity)
    requires Transcript.EventsIncrease(events)
    ensures var turn := TurnOf(events, receipts);
      row in PartOf(turn.segments, true)
      <==> && row in turn.items
           && if turn.stopped then row.Single? || row.Group?
              else
                && turn.hasFinal && turn.reply != []
                && RowOrder.ActivityKey(row) < RowOrder.ActivityKey(turn.reply[0])
                && (|| (row.Plain? && row.item.AssistantItem?) || row.Single? || row.Group?
                    || (row.Plain? && row.item.EventItem? && row.item.value.Notice?
                        && !IsSkillNotice(row.item.value.text)))
  {
    var rows := TurnOf(events, receipts).items;
    TurnRowsAreDistinct(events, receipts);
    SegmentsOfTurn(events, receipts);
    if TurnOf(events, receipts).stopped {
      StoppedTurnFoldsTools(TurnOf(events, receipts).hasFinal, rows, row);
    } else if TurnOf(events, receipts).hasFinal {
      if row in rows {
        WorkIsProcess(events, receipts, row);
      }
      FoldedIs(rows, row);
    } else {
      UnconfirmedTurnFoldsNothing(rows, row);
    }
  }

  /** The visible part is the rest. */
  lemma TurnShowsTheRest(events: seq<Event>, receipts: Transcript.Receipts, row: Activity)
    requires Transcript.EventsIncrease(events)
    ensures var turn := TurnOf(events, receipts);
      row in PartOf(turn.segments, false) <==> row in turn.items && row !in PartOf(turn.segments, true)
  {
    var turn := TurnOf(events, receipts);
    TurnRowsAreDistinct(events, receipts);
    SegmentsOfTurn(events, receipts);
    PartsAreDisjoint(turn.stopped, turn.hasFinal, turn.items, row);
  }

  lemma PartsAreDisjoint(stopped: bool, hasFinal: bool, rows: seq<Activity>, row: Activity)
    requires Distinct(rows)
    ensures row in PartOf(SegmentsOf(stopped, hasFinal, rows), false)
            <==> row in rows && row !in PartOf(SegmentsOf(stopped, hasFinal, rows), true)
  {
    PartIs(stopped, hasFinal, rows, false, row);
    PartIs(stopped, hasFinal, rows, true, row);
    if i, j :| 0 <= i < |rows| && 0 <= j < |rows| && rows[i] == row && rows[j] == row {
      assert i == j;
    }
  }

  // ---------------------------------------------------------------- how the turn ended

  lemma StatusIs(events: seq<Event>, receipts: Transcript.Receipts)
    ensures var turn := TurnOf(events, receipts);
      turn.status == LastState(events) && turn.stopped == (LastState(events) == Some(Stopped))
  {
  }

  /** A turn has the status of its last state event, and is stopped exactly if that is stopped. */
  lemma TurnStatusIff(events: seq<Event>, receipts: Transcript.Receipts, status: SessionStatus)
    ensures TurnOf(events, receipts).status == Some(status)
            <==> exists k: nat :: k < |events| && IsLastState(events, k) && events[k].event.status == status
    ensures TurnOf(events, receipts).stopped
            <==> exists k: nat :: k < |events| && IsLastState(events, k) && events[k].event.status == Stopped
  {
    StatusIs(events, receipts);
    LastStateHas(events, status);
    LastStateHas(events, Stopped);
  }

  lemma LastStateHas(events: seq<Event>, status: SessionStatus)
    ensures LastState(events) == Some(status)
            <==> exists k: nat :: k < |events| && IsLastState(events, k) && events[k].event.status == status
  {
    if k: nat :| k < |events| && IsLastState(events, k) && events[k].event.status == status {
      LastStateIs(events, k);
    }
    if LastState(events) == Some(status) {
      var k := LastStateAt(events);
      LastStateIs(events, k);
    }
  }

  // ---------------------------------------------------------------- the confirmed reply

  /** Paragraphs with an empty line between them. */
  function Paragraphs(texts: seq<string>): string {
    if texts == [] then ""
    else if |texts| == 1 then texts[0]
    else texts[0] + "\n\n" + Paragraphs(texts[1..])
  }

  ghost predicate AllAssistants(rows: seq<Activity>) {
    forall i | 0 <= i < |rows| :: IsAssistant(rows[i])
  }

  ghost function TextsOf(rows: seq<Activity>): (texts: seq<string>)
    requires AllAssistants(rows)
    ensures |texts| == |rows| && forall i | 0 <= i < |rows| :: texts[i] == rows[i].item.text
  {
    seq(|rows|, i requires 0 <= i < |rows| => rows[i].item.text)
  }

  lemma {:induction false} ParagraphsSnoc(texts: seq<string>, last: string)
    requires texts != []
    ensures Paragraphs(texts + [last]) == Paragraphs(texts) + "\n\n" + last
  {
    if |texts| == 1 {
      assert texts + [last] == [texts[0], last];
      assert [texts[0], last][1..] == [last];
    } else {
      ParagraphsSnoc(texts[1..], last);
      TailOfSum(texts, [last]);
      var a, b, c := texts[0] + "\n\n", Paragraphs(texts[1..]), "\n\n" + last;
      Associates(a, b, c);
      assert Paragraphs(texts[1..]) + "\n\n" + last == b + c;
      assert Paragraphs(texts) == a + b;
    }
  }

  lemma {:induction false} ReplyTextIs(reply: seq<Activity>)
    requires AllAssistants(reply)
    ensures ReplyText(reply) == Paragraphs(TextsOf(reply))
  {
    if reply != [] {
      var n := |reply| - 1;
      ReplyTextIs(reply[..n]);
      assert TextsOf(reply) == TextsOf(reply[..n]) + [reply[n].item.text];
      if n > 0 {
        ParagraphsSnoc(TextsOf(reply[..n]), reply[n].item.text);
      }
    }
  }

  lemma {:induction false} LastStateEventIs(events: seq<Event>, k: nat)
    requires k < |events| && IsLastState(events, k)
    ensures LastStateEvent(events) == Some(events[k])
    decreases |events|
  {
    var n := |events| - 1;
    if k < n {
      assert !events[n].event.State?;
      LastStateEventIs(events[..n], k);
    }
  }

  lemma FinalOfTurn(events: seq<Event>, receipts: Transcript.Receipts)
    ensures var turn := TurnOf(events, receipts);
      turn.final == FinalOf(turn.hasFinal, turn.items, LastStateEvent(events))
  {
  }

  lemma ReplyIsAssistants(rows: seq<Activity>)
    ensures AllAssistants(FinalReply(rows))
  {
    forall i | 0 <= i < |FinalReply(rows)| ensures IsAssistant(FinalReply(rows)[i]) {
      assert FinalReply(rows)[i] in FinalReply(rows);
    }
  }

  /** What a reply is shown with. */
  ghost predicate ShowsReply(reply: seq<Activity>, end: Event, final: Final) {
    && AllAssistants(reply) && reply != [] && final.key == reply[|reply| - 1].item.key
    && final.text == Paragraphs(TextsOf(reply)) && final.at == end.at
  }

  lemma FinalShowsReply(rows: seq<Activity>, end: Event)
    requires FinalReply(rows) != []
    ensures var final := FinalOf(true, rows, Some(end));
      final.Some? && ShowsReply(FinalReply(rows), end, final.value)
  {
    ReplyIsAssistants(rows);
    ReplyTextIs(FinalReply(rows));
  }

  /**
   * A turn shows a final reply exactly if it is confirmed: under the key of the last row of the reply, with its
   * paragraphs in order, and at the time of the last state event.
   */
  lemma FinalIs(events: seq<Event>, receipts: Transcript.Receipts)
    ensures var turn := TurnOf(events, receipts);
      && (turn.final.Some? <==> turn.hasFinal)
      && (turn.hasFinal ==>
            exists k: nat ::
              k < |events| && IsLastState(events, k) && ShowsReply(turn.reply, events[k], turn.final.value))
  {
    SegmentsOfTurn(events, receipts);
    FinalOfTurn(events, receipts);
    HasFinalIs(events, receipts);
    if TurnOf(events, receipts).hasFinal {
      var k := LastStateAt(events);
      LastStateEventIs(events, k);
      FinalShowsReply(TurnOf(events, receipts).items, events[k]);
    }
  }

  // ---------------------------------------------------------------- the rows of a turn

  lemma FirstRowIs(rows: seq<Activity>, user: Option<Item>)
    requires user.Some? && StartsWith(rows, Plain(user.value)) && RowOrder.KeysGrow(rows)
    ensures forall row | row in rows[1..] :: row in rows && RowOrder.ActivityKey(row) > user.value.key as real
  {
  }

  /** The message of a turn shows its first event. */
  lemma TurnMessageIs(events: seq<Event>, receipts: Transcript.Receipts)
    requires OneTurn(events) && events[0].event.User?
    ensures var user := TurnOf(events, receipts).user;
      && user.Some? && user.value.UserItem? && !user.value.handoff
      && user.value.key == events[0].seqNo && user.value.text == events[0].event.text
      && user.value.at == events[0].at
  {
    var item := Transcript.UserRow(Transcript.IndexOf(events, receipts), events[0]);
    ShownStarts(events, receipts);
    UserOfTurn(events, receipts, item);
  }

  lemma ShownStarts(events: seq<Event>, receipts: Transcript.Receipts)
    requires events != [] && events[0].event.User?
    ensures var item := Transcript.UserRow(Transcript.IndexOf(events, receipts), events[0]);
      StartsWith(Without(TurnDisplay(events, receipts), IsHiddenNotice), Plain(item))
  {
    TranscriptStarts(events, receipts);
    DisplayStarts(Transcript.Terminals(events), TurnItems(events, receipts));
    WithoutStarts(TurnDisplay(events, receipts), IsHiddenNotice);
  }

  lemma UserOfTurn(events: seq<Event>, receipts: Transcript.Receipts, item: Item)
    requires StartsWith(Without(TurnDisplay(events, receipts), IsHiddenNotice), Plain(item))
    requires Projection.EndsTurn(item)
    ensures TurnOf(events, receipts).user == Some(item)
  {
  }

  /** The rows of a turn before a stop mark is dropped: all rows, or those after its message. */
  ghost predicate BodyFrom(turn: Turn, rows: seq<Activity>, body: seq<Activity>) {
    && turn.items == (if turn.stopped then Without(body, IsStoppedState) else body)
    && body == (if turn.user.Some? && rows != [] then rows[1..] else rows)
    && (turn.user.Some? ==> StartsWith(rows, Plain(turn.user.value)))
  }

  ghost predicate BodyOf(events: seq<Event>, receipts: Transcript.Receipts, body: seq<Activity>) {
    BodyFrom(TurnOf(events, receipts), Without(TurnDisplay(events, receipts), IsHiddenNotice), body)
  }

  predicate HasMessage(rows: seq<Activity>) {
    rows != [] && rows[0].Plain? && Projection.EndsTurn(rows[0].item)
  }

  function TurnFrom(events: seq<Event>, rows: seq<Activity>): Turn {
    if HasMessage(rows) then TurnWith(events, Some(rows[0].item), rows[1..]) else TurnWith(events, None, rows)
  }

  lemma TurnIsFrom(events: seq<Event>, receipts: Transcript.Receipts)
    ensures TurnOf(events, receipts) == TurnFrom(events, Without(TurnDisplay(events, receipts), IsHiddenNotice))
  {
  }

  lemma FromHasBody(events: seq<Event>, rows: seq<Activity>)
    ensures BodyFrom(TurnFrom(events, rows), rows, if HasMessage(rows) then rows[1..] else rows)
  {
  }

  lemma TurnBody(events: seq<Event>, receipts: Transcript.Receipts) returns (body: seq<Activity>)
    ensures BodyOf(events, receipts, body)
  {
    var rows := Without(TurnDisplay(events, receipts), IsHiddenNotice);
    TurnIsFrom(events, receipts);
    FromHasBody(events, rows);
    body := if HasMessage(rows) then rows[1..] else rows;
  }

  lemma OnlyFirst(events: seq<Event>, e: Event)
    requires OneTurn(events) && e in events && e.event.User?
    ensures e == events[0]
  {
  }

  /** The only message of a turn is the one that opens it. */
  lemma MessagesAreFirst(events: seq<Event>, receipts: Transcript.Receipts, row: Activity)
    requires OneTurn(events) && row in TurnDisplay(events, receipts) && row.Plain? && Projection.EndsTurn(row.item)
    ensures events[0].event.User? && row.item.key == events[0].seqNo
  {
    ShownIsItem(events, receipts, row);
    RowsAreEvents(events, receipts, row.item);
    var e :| e in events && Makes(Transcript.IndexOf(events, receipts), e, row.item);
    MakesItem(Transcript.IndexOf(events, receipts), e, row.item);
    OnlyFirst(events, e);
  }

  /** A message among the rows after the first would have the key of the first. */
  lemma BodyIs(events: seq<Event>, receipts: Transcript.Receipts, row: Activity) returns (body: seq<Activity>)
    requires OneTurn(events) && Transcript.EventsIncrease(events)
    ensures BodyOf(events, receipts, body)
    ensures row in body
            <==> && row in TurnDisplay(events, receipts) && !IsHiddenNotice(row)
                 && !(row.Plain? && Projection.EndsTurn(row.item))
  {
    var shown, turn := TurnDisplay(events, receipts), TurnOf(events, receipts);
    var rows := Without(shown, IsHiddenNotice);
    body := TurnBody(events, receipts);
    Transcript.TranscriptIncreases(events, receipts);
    RowOrder.DisplayKeysGrow(Transcript.Terminals(events), TurnItems(events, receipts));
    WithoutKeysGrow(shown, IsHiddenNotice);
    OpenedByMessageIff(events, receipts);
    if row in shown && row.Plain? && Projection.EndsTurn(row.item) {
      MessagesAreFirst(events, receipts, row);
    }
    if turn.user.Some? {
      TurnMessageIs(events, receipts);
      UserEnds(events, receipts);
      FirstRowIs(rows, turn.user);
      RestOf(rows, Plain(turn.user.value), row);
    }
  }

  lemma RestOf(rows: seq<Activity>, first: Activity, row: Activity)
    requires StartsWith(rows, first)
    ensures row in rows <==> row == first || row in rows[1..]
  {
    assert rows == [first] + rows[1..];
  }

  /**
   * The rows of a turn are the displayed rows less its message, the notices that name the model, and the stop mark
   * of a stopped turn.
   */
  lemma TurnRowsIff(events: seq<Event>, receipts: Transcript.Receipts, row: Activity)
    requires OneTurn(events) && Transcript.EventsIncrease(events)
    ensures var turn := TurnOf(events, receipts);
      row in turn.items
      <==> && row in TurnDisplay(events, receipts)
           && !(row.Plain? && row.item.UserItem? && !row.item.handoff)
           && !(row.Plain? && row.item.EventItem? && row.item.value.Notice? && IsModelNotice(row.item.value.text))
           && !(turn.stopped && row.Plain? && row.item.EventItem? && row.item.value.State?
                && row.item.value.status == Stopped)
  {
    var body := BodyIs(events, receipts, row);
  }

  // ---------------------------------------------------------------- notices

  const LINE_ENDS := "\n\r\U{2028}\U{2029}"

  /** The white space of ECMAScript. */
  const WHITE_SPACE :=
    LINE_ENDS + "\t \U{B}\U{C}\U{A0}\U{1680}\U{2000}\U{2001}\U{2002}\U{2003}\U{2004}\U{2005}"
    + "\U{2006}\U{2007}\U{2008}\U{2009}\U{200A}\U{202F}\U{205F}\U{3000}\U{FEFF}"

  lemma LineEndIff(c: char)
    ensures IsLineEnd(c) <==> c in LINE_ENDS
  {
  }

  lemma SpaceIff(c: char)
    ensures IsSpace(c) <==> c in WHITE_SPACE
  {
    LineEndIff(c);
    assert '\U{2000}' <= c <= '\U{200A}'
      <==> c in "\U{2000}\U{2001}\U{2002}\U{2003}\U{2004}\U{2005}\U{2006}\U{2007}\U{2008}\U{2009}\U{200A}";
  }

  ghost predicate NamesSkill(text: string, name: string) {
    text == "\U{5DF2}\U{52A0}\U{8F7D} Skill\U{FF1A}" + name && name != "" && forall c | c in name :: c !in WHITE_SPACE
  }

  ghost predicate NamesModel(text: string, model: string) {
    text == "\U{6A21}\U{578B}\U{FF1A}" + model
  }

  ghost predicate NamesProvider(text: string, provider: string, model: string) {
    text == "Provider\U{FF1A}" + provider + " \U{B7} \U{6A21}\U{578B}\U{FF1A}" + model
    && forall c | c in provider :: c !in LINE_ENDS
  }

  /** Which notices tell that a skill was loaded. */
  lemma SkillNoticeIff(text: string)
    ensures IsSkillNotice(text) <==> exists name :: NamesSkill(text, name)
  {
    forall c ensures IsSpace(c) <==> c in WHITE_SPACE {
      SpaceIff(c);
    }
    if IsSkillNotice(text) {
      assert NamesSkill(text, text[|SKILL_PREFIX|..]);
    }
    if name :| NamesSkill(text, name) {
      assert text[|SKILL_PREFIX|..] == name;
    }
  }

  lemma NamesProviderIs(text: string, provider: string, model: string)
    requires NamesProvider(text, provider, model)
    ensures IsModelNotice(text)
  {
    forall c ensures IsLineEnd(c) <==> c in LINE_ENDS {
      LineEndIff(c);
    }
    var i := |PROVIDER_PREFIX| + |provider|;
    assert text[|PROVIDER_PREFIX|..i] == provider;
    assert text[i..] == MODEL_INFIX + model;
    assert ModelFollows(text, i);
  }

  lemma ProviderNamed(text: string, i: nat)
    requires PROVIDER_PREFIX <= text && |PROVIDER_PREFIX| <= i <= |text| && ModelFollows(text, i)
    ensures NamesProvider(text, text[|PROVIDER_PREFIX|..i], text[i..][|MODEL_INFIX|..])
  {
    forall c ensures IsLineEnd(c) <==> c in LINE_ENDS {
      LineEndIff(c);
    }
    assert text[i..] == MODEL_INFIX + text[i..][|MODEL_INFIX|..];
    assert text == text[..|PROVIDER_PREFIX|] + text[|PROVIDER_PREFIX|..i] + text[i..];
  }

  lemma NoticeNames(text: string)
    requires IsModelNotice(text)
    ensures (exists model :: NamesModel(text, model)) || exists provider, model :: NamesProvider(text, provider, model)
  {
    if MODEL_PREFIX <= text {
      assert NamesModel(text, text[|MODEL_PREFIX|..]);
    } else {
      var i: nat :| |PROVIDER_PREFIX| <= i <= |text| && ModelFollows(text, i);
      ProviderNamed(text, i);
    }
  }

  /** Which notices name the model, with or without the provider. */
  lemma ModelNoticeIff(text: string)
    ensures IsModelNotice(text)
            <==> || (exists model :: NamesModel(text, model))
                 || (exists provider, model :: NamesProvider(text, provider, model))
  {
    if IsModelNotice(text) {
      NoticeNames(text);
    }
    if provider, model :| NamesProvider(text, provider, model) {
      NamesProviderIs(text, provider, model);
    }
  }
}

/** Tickets fed by inbound agent events (demo-platform/otter-projects/lib/service.ts and poller.ts). */
module Tickets {
  import opened Digits
  import opened Results
  import opened Texts

  const SEEN_LIMIT := 500
  const MESSAGE_LIMIT := 20_000
  const PREVIEW_LIMIT := 500
  const URL_LIMIT := 2000

  datatype Status = Backlog | Ready | InProgress | InReview | Done

  /** The order of the columns on the board. */
  function Rank(s: Status): nat {
    match s
    case Backlog => 0
    case Ready => 1
    case InProgress => 2
    case InReview => 3
    case Done => 4
  }

  datatype DevinLink = DevinLink(sessionId: Option<string>, sessionUrl: Option<string>, status: Option<string>,
                                 lastMessage: Option<string>, lastMessageAt: Option<int>, dispatchedAt: Option<int>,
                                 seen: seq<string>, lastPolledAt: Option<int>)

  datatype Ticket = Ticket(key: string, status: Status, prUrl: string, devin: DevinLink, updatedAt: int)

  datatype DevinEvent = DevinEvent(sessionId: Option<string>, sessionUrl: Option<string>, status: Option<string>,
                                   message: string, messageId: Option<string>, messageAt: Option<int>, prUrl: string)

  datatype Comment = Comment(ticketKey: string, author: string, body: string, createdAt: int)

  datatype Change = SessionAttached | SessionUrl | DevinStatus(text: string) | Message | Pr(url: string)
                  | Moved(from: Status, to: Status)

  datatype Activity = Activity(ticketKey: string, actor: string, changes: seq<Change>)

  /** What a message id is hashed from when the event carries none. */
  datatype Preimage = Timed(at: int, message: string) | Untimed(session: string, status: string, message: string)

  function Truncated<T>(s: seq<T>, max: nat): seq<T> { if |s| > max then s[..max] else s }

  function Suffix<T>(s: seq<T>, max: nat): seq<T> { if |s| > max then s[|s| - max..] else s }

  predicate Given(o: Option<string>) { o.Some? && o.value != "" }

  function OrEmpty(o: Option<string>): string { if o.Some? then o.value else "" }

  function MessageOf(ev: DevinEvent): string { Strip(Truncated(ev.message, MESSAGE_LIMIT)) }

  function PrUrlOf(ev: DevinEvent): string { Strip(Truncated(ev.prUrl, URL_LIMIT)) }

  function MessageIdOf(ev: DevinEvent, sha1: Preimage -> string): string {
    if Given(ev.messageId) then ev.messageId.value
    else if ev.messageAt.Some? then sha1(Timed(ev.messageAt.value, MessageOf(ev)))
    else sha1(Untimed(OrEmpty(ev.sessionId), OrEmpty(ev.status), MessageOf(ev)))
  }

  /** The event brings a message that the ticket does not remember. */
  predicate Unseen(t: Ticket, ev: DevinEvent, sha1: Preimage -> string) {
    MessageOf(ev) != "" && MessageIdOf(ev, sha1) !in t.devin.seen
  }

  // ---- one event ----

  function Mirrored(d: DevinLink, ev: DevinEvent): DevinLink {
    d.(sessionId := if Given(ev.sessionId) then ev.sessionId else d.sessionId,
       sessionUrl := if Given(ev.sessionUrl) then ev.sessionUrl else d.sessionUrl,
       status := if Given(ev.status) then ev.status else d.status)
  }

  function AtOf(ev: DevinEvent, now: int): int { if ev.messageAt.Some? then ev.messageAt.value else now }

  function Noted(d: DevinLink, ev: DevinEvent, now: int, sha1: Preimage -> string): DevinLink {
    d.(seen := Suffix(d.seen + [MessageIdOf(ev, sha1)], SEEN_LIMIT),
       lastMessage := Some(Truncated(MessageOf(ev), PREVIEW_LIMIT)),
       lastMessageAt := Some(AtOf(ev, now)))
  }

  predicate FinishedText(s: Option<string>) { s == Some("finished") || s == Some("done") || s == Some("completed") }

  /** The column an event moves a ticket to; the ticket already carries the event's pull request. */
  function NextStatus(s: Status, hasPr: bool, finished: bool, working: bool): Status {
    if finished && hasPr && s != Done then Done
    else if hasPr && (s == Backlog || s == Ready || s == InProgress) then InReview
    else if !hasPr && working && (s == Backlog || s == Ready) then InProgress
    else s
  }

  function NewPr(t: Ticket, ev: DevinEvent): string { if PrUrlOf(ev) != "" then PrUrlOf(ev) else t.prUrl }

  function FinalText(d: DevinLink, ev: DevinEvent): Option<string> { if ev.status.Some? then ev.status else d.status }

  /** The ticket after an event, before its date of update is set. */
  function Updated(t: Ticket, ev: DevinEvent, now: int, sha1: Preimage -> string): Ticket {
    var link := Mirrored(t.devin, ev);
    Settled(t, if Unseen(t, ev, sha1) then Noted(link, ev, now, sha1) else link, ev)
  }

  function Settled(t: Ticket, devin: DevinLink, ev: DevinEvent): Ticket {
    var pr := NewPr(t, ev);
    t.(devin := devin, prUrl := pr,
       status := NextStatus(t.status, pr != "", FinishedText(FinalText(devin, ev)), Given(ev.sessionId) || Given(ev.status)))
  }

  function SettleChanges(t: Ticket, u: Ticket): seq<Change> {
    (if u.prUrl != t.prUrl then [Pr(u.prUrl)] else []) +
    (if u.status != t.status then [Moved(t.status, u.status)] else [])
  }

  function LinkChanges(d: DevinLink, ev: DevinEvent): seq<Change> {
    (if Given(ev.sessionId) && ev.sessionId != d.sessionId then [SessionAttached] else []) +
    (if Given(ev.sessionUrl) && ev.sessionUrl != d.sessionUrl then [SessionUrl] else []) +
    (if Given(ev.status) && ev.status != d.status then [DevinStatus(ev.status.value)] else [])
  }

  function Changes(t: Ticket, ev: DevinEvent, now: int, sha1: Preimage -> string): seq<Change> {
    LinkChanges(t.devin, ev) + (if Unseen(t, ev, sha1) then [Message] else []) +
    SettleChanges(t, Updated(t, ev, now, sha1))
  }

  /** The stored ticket after an event; an event without changes is not written. */
  function Applied(t: Ticket, ev: DevinEvent, now: int, sha1: Preimage -> string): Ticket {
    if Changes(t, ev, now, sha1) == [] then t else Updated(t, ev, now, sha1).(updatedAt := now)
  }

  function Posted(t: Ticket, ev: DevinEvent, now: int, actor: string, sha1: Preimage -> string): seq<Comment> {
    if Unseen(t, ev, sha1) then [Comment(t.key, actor, MessageOf(ev), AtOf(ev, now))] else []
  }

  datatype Store = Store(tickets: map<string, Ticket>, comments: seq<Comment>, activity: seq<Activity>)

  function AppliedStore(s: Store, key: string, ev: DevinEvent, now: int, actor: string, sha1: Preimage -> string): Store
    requires key in s.tickets
  {
    var t := s.tickets[key];
    var changes := Changes(t, ev, now, sha1);
    Store(s.tickets[key := Applied(t, ev, now, sha1)], s.comments + Posted(t, ev, now, actor, sha1),
          s.activity + if changes == [] then [] else [Activity(key, actor, changes)])
  }

  class TicketService {
    var tickets: map<string, Ticket>
    var comments: seq<Comment>
    var activity: seq<Activity>

    ghost function Contents(): Store
      reads this
    {
      Store(tickets, comments, activity)
    }

    /** Tickets are filed under their own key. */
    ghost predicate Valid()
      reads this
    {
      forall k :: k in tickets ==> tickets[k].key == k
    }

    constructor ()
      ensures Valid() && Contents() == Store(map[], [], [])
    {
      tickets, comments, activity := map[], [], [];
    }

    /** `applyDevinEvent`. */
    method ApplyDevinEvent(key: string, ev: DevinEvent, actor: string, now: int, sha1: Preimage -> string)
      returns (r: Option<Ticket>)
      requires Valid()
      modifies this
      ensures Valid()
      ensures r.None? <==> key !in old(tickets)
      ensures r.None? ==> Contents() == old(Contents())
      ensures r.Some? ==> Contents() == AppliedStore(old(Contents()), key, ev, now, actor, sha1) && r.value == tickets[key]
    {
      if key !in tickets { return None; }
      var t := tickets[key];
      var devin, changes := AttachSession(t.devin, ev);
      var posted;
      devin, posted := MirrorMessage(t, devin, ev, actor, now, sha1);
      changes := changes + posted;
      var moved;
      t, moved := Settle(t, devin, ev);
      changes := changes + moved;
      assert changes == Changes(old(tickets)[key], ev, now, sha1);
      if changes == [] {
        UnchangedStays(old(tickets)[key], ev, now, sha1);
        assert tickets == old(tickets)[key := t];
        return Some(t);
      }
      t := t.(updatedAt := now);
      tickets := tickets[key := t];
      activity := activity + [Activity(t.key, actor, changes)];
      return Some(t);
    }

    /** Session, session address and agent status. */
    method AttachSession(d: DevinLink, ev: DevinEvent) returns (devin: DevinLink, changes: seq<Change>)
      ensures devin == Mirrored(d, ev) && changes == LinkChanges(d, ev)
    {
      devin, changes := d, [];
      if Given(ev.sessionId) && ev.sessionId != devin.sessionId {
        devin, changes := devin.(sessionId := ev.sessionId), changes + [SessionAttached];
      }
      if Given(ev.sessionUrl) && ev.sessionUrl != devin.sessionUrl {
        devin, changes := devin.(sessionUrl := ev.sessionUrl), changes + [SessionUrl];
      }
      if Given(ev.status) && ev.status != devin.status {
        devin, changes := devin.(status := ev.status), changes + [DevinStatus(ev.status.value)];
      }
    }

    /** The message, unless it is blank or remembered. */
    method MirrorMessage(t: Ticket, d: DevinLink, ev: DevinEvent, actor: string, now: int, sha1: Preimage -> string)
      returns (devin: DevinLink, changes: seq<Change>)
      requires d.seen == t.devin.seen
      modifies this`comments
      ensures devin == if Unseen(t, ev, sha1) then Noted(d, ev, now, sha1) else d
      ensures changes == if Unseen(t, ev, sha1) then [Message] else []
      ensures comments == old(comments) + Posted(t, ev, now, actor, sha1)
    {
      devin, changes := d, [];
      var message := MessageOf(ev);
      if message != "" {
        var at := AtOf(ev, now);
        var id := MessageIdOf(ev, sha1);
        if id !in devin.seen {
          devin := devin.(seen := devin.seen + [id]);
          if |devin.seen| > SEEN_LIMIT { devin := devin.(seen := devin.seen[|devin.seen| - SEEN_LIMIT..]); }
          devin := devin.(lastMessage := Some(Truncated(message, PREVIEW_LIMIT)), lastMessageAt := Some(at));
          comments := comments + [Comment(t.key, actor, message, at)];
          changes := changes + [Message];
        }
      }
    }

    /** The pull request and the column. */
    method Settle(t0: Ticket, devin: DevinLink, ev: DevinEvent) returns (t: Ticket, changes: seq<Change>)
      ensures t == Settled(t0, devin, ev) && changes == SettleChanges(t0, t)
    {
      t, changes := t0, [];
      var prUrl := PrUrlOf(ev);
      if prUrl != "" && prUrl != t.prUrl { t, changes := t.(prUrl := prUrl), changes + [Pr(prUrl)]; }
      var next := MoveTo(t, FinishedText(FinalText(devin, ev)), Given(ev.sessionId) || Given(ev.status));
      if next.Some? && next.value != t.status {
        changes := changes + [Moved(t.status, next.value)];
        t := t.(status := next.value);
      }
      t := t.(devin := devin);
    }

    method MoveTo(t: Ticket, finished: bool, working: bool) returns (next: Option<Status>)
      ensures NextStatus(t.status, t.prUrl != "", finished, working) == if next.Some? then next.value else t.status
    {
      next := None;
      if finished && t.prUrl != "" && t.status != Done {
        next := Some(Done);
      } else if t.prUrl != "" && (t.status == Backlog || t.status == Ready || t.status == InProgress) {
        next := Some(InReview);
      } else if t.prUrl == "" && working && (t.status == Backlog || t.status == Ready) {
        next := Some(InProgress);
      }
    }

    /**
     * One ticket of the poller: the unseen messages of the session in order of time, then its state, then the time
     * stamp.
     */
    method PollTicket(key: string, session: Session, messages: seq<SessionMessage>, now: int, sha1: Preimage -> string)
      requires Valid() && key in tickets
      modifies this
      ensures Valid()
      ensures Contents() == PolledStore(old(Contents()), key, session, messages, now, sha1)
    {
      var unseen := SortByTime(FreshMessages(messages, tickets[key].devin.seen));
      for i := 0 to |unseen|
        invariant Valid() && key in tickets
        invariant Contents() == MessagesStore(old(Contents()), key, session, unseen[..i], now, sha1)
      {
        assert unseen[..i + 1][..i] == unseen[..i];
        var _ := ApplyDevinEvent(key, MessageEvent(session, unseen[i]), DEVIN, now, sha1);
      }
      assert unseen[..|unseen|] == unseen;
      FinishPoll(key, session, now, sha1);
    }

    /** The state of the session, and the time stamp. */
    method FinishPoll(key: string, session: Session, now: int, sha1: Preimage -> string)
      requires Valid() && key in tickets
      modifies this
      ensures Valid()
      ensures Contents() == FinishedPoll(old(Contents()), key, session, now, sha1)
    {
      var after := ApplyDevinEvent(key, SessionEvent(session), DEVIN, now, sha1);
      var t := after.value;
      tickets := tickets[key := t.(devin := t.devin.(lastPolledAt := Some(now)))];
    }
  }

  // ---- the poller ----

  const DEVIN := "devin"

  datatype Session = Session(id: string, url: string, status: string, prUrl: string)

  datatype SessionMessage = SessionMessage(eventId: string, fromDevin: bool, createdAt: int, text: string)

  /** The agent's messages that are not remembered, in order. */
  function FreshMessages(messages: seq<SessionMessage>, seen: seq<string>): (ms: seq<SessionMessage>)
    ensures |ms| <= |messages|
    ensures forall m :: m in ms <==> m in messages && m.fromDevin && m.eventId !in seen
  {
    if messages == [] then []
    else
      var m := messages[0];
      (if m.fromDevin && m.eventId !in seen then [m] else []) + FreshMessages(messages[1..], seen)
  }

  function InsertByTime(ms: seq<SessionMessage>, m: SessionMessage): (r: seq<SessionMessage>)
    ensures |r| == |ms| + 1
    ensures forall x :: x in r <==> x in ms || x == m
  {
    if ms == [] || ms[|ms| - 1].createdAt <= m.createdAt then ms + [m]
    else
      assert ms == ms[..|ms| - 1] + [ms[|ms| - 1]];
      InsertByTime(ms[..|ms| - 1], m) + [ms[|ms| - 1]]
  }

  lemma {:induction false} InsertOrders(ms: seq<SessionMessage>, m: SessionMessage)
    requires ByTime(ms)
    ensures ByTime(InsertByTime(ms, m))
  {
    if ms == [] || ms[|ms| - 1].createdAt <= m.createdAt {
    } else {
      var front, last := ms[..|ms| - 1], ms[|ms| - 1];
      InsertOrders(front, m);
      assert forall x :: x in InsertByTime(front, m) ==> x.createdAt <= last.createdAt;
      var ins := InsertByTime(front, m);
      assert forall i :: 0 <= i < |ins| ==> ins[i] in ins;
    }
  }

  ghost predicate ByTime(ms: seq<SessionMessage>) {
    forall i, j :: 0 <= i <= j < |ms| ==> ms[i].createdAt <= ms[j].createdAt
  }

  function SortByTime(ms: seq<SessionMessage>): (r: seq<SessionMessage>)
    ensures |r| == |ms|
    ensures forall x :: x in r <==> x in ms
  {
    if ms == [] then []
    else
      assert ms == ms[..|ms| - 1] + [ms[|ms| - 1]];
      InsertByTime(SortByTime(ms[..|ms| - 1]), ms[|ms| - 1])
  }

  lemma {:induction false} SortedByTime(ms: seq<SessionMessage>)
    ensures ByTime(SortByTime(ms))
  {
    if ms == [] {
    } else {
      SortedByTime(ms[..|ms| - 1]);
      InsertOrders(SortByTime(ms[..|ms| - 1]), ms[|ms| - 1]);
    }
  }

  function MessageEvent(s: Session, m: SessionMessage): DevinEvent {
    DevinEvent(Some(s.id), Some(s.url), None, m.text, Some(m.eventId), Some(m.createdAt), "")
  }

  function SessionEvent(s: Session): DevinEvent {
    DevinEvent(Some(s.id), Some(s.url), Some(s.status), "", None, None, s.prUrl)
  }

  function MessagesStore(s: Store, key: string, session: Session, ms: seq<SessionMessage>, now: int,
                         sha1: Preimage -> string): (r: Store)
    requires key in s.tickets
    ensures key in r.tickets
    decreases |ms|
  {
    if ms == [] then s
    else
      var n := |ms| - 1;
      AppliedStore(MessagesStore(s, key, session, ms[..n], now, sha1), key, MessageEvent(session, ms[n]), now, DEVIN, sha1)
  }

  function Stamped(s: Store, key: string, now: int): Store
    requires key in s.tickets
  {
    var t := s.tickets[key];
    s.(tickets := s.tickets[key := t.(devin := t.devin.(lastPolledAt := Some(now)))])
  }

  function PolledStore(s: Store, key: string, session: Session, messages: seq<SessionMessage>, now: int,
                       sha1: Preimage -> string): Store
    requires key in s.tickets
  {
    FinishedPoll(MessagesStore(s, key, session, PollMessages(s, key, messages), now, sha1), key, session, now, sha1)
  }

  /** Without changes there is nothing to write. */
  lemma UnchangedStays(t: Ticket, ev: DevinEvent, now: int, sha1: Preimage -> string)
    requires Changes(t, ev, now, sha1) == []
    ensures Updated(t, ev, now, sha1) == t
  {
  }

  // ---- what one event guarantees ----

  /** A status never moves backwards. */
  lemma NeverBackwards(t: Ticket, ev: DevinEvent, now: int, sha1: Preimage -> string)
    ensures Rank(t.status) <= Rank(Applied(t, ev, now, sha1).status)
  {
  }

  /** A ticket with a pull request ends in review or done; a pull request is never forgotten. */
  lemma PrMeansReview(t: Ticket, ev: DevinEvent, now: int, sha1: Preimage -> string)
    ensures var u := Applied(t, ev, now, sha1);
            && (u.prUrl != "" <==> t.prUrl != "" || PrUrlOf(ev) != "")
            && (u.prUrl != "" ==> u.status == InReview || u.status == Done)
  {
    if Changes(t, ev, now, sha1) == [] { UnchangedStays(t, ev, now, sha1); }
  }

  /** The agent's status after an event: the one of the event if it brings any, even an empty one. */
  function AgentStatus(t: Ticket, ev: DevinEvent): Option<string> {
    match ev.status case Some(s) => Some(s) case None => t.devin.status
  }

  lemma StatusMoves(s: Status, pr: bool, finished: bool, word: bool)
    ensures var u := NextStatus(s, pr, finished, word);
            && (u == Done <==> s == Done || (pr && finished))
            && (u == InReview <==> s != Done && !(pr && finished) && (pr || s == InReview))
            && (u == InProgress <==> !pr && (s == InProgress || ((s == Backlog || s == Ready) && word)))
            && (u == Ready || u == Backlog ==> u == s)
  {
  }

  lemma FinishedTexts(o: Option<string>)
    ensures FinishedText(o) <==> o in {Some("finished"), Some("done"), Some("completed")}
  {
  }

  /**
   * Where an event leaves a ticket: a pull request of a finished session means done, any other pull request review, and
   * word of a session without one progress; nothing else moves it.
   */
  lemma StatusExactly(t: Ticket, ev: DevinEvent, now: int, sha1: Preimage -> string)
    ensures var u, pr := Applied(t, ev, now, sha1), t.prUrl != "" || PrUrlOf(ev) != "";
            var finished := AgentStatus(t, ev) in {Some("finished"), Some("done"), Some("completed")};
            var word := ev.sessionId !in {None, Some("")} || ev.status !in {None, Some("")};
            && (u.status == Done <==> t.status == Done || (pr && finished))
            && (u.status == InReview <==> t.status != Done && !(pr && finished) && (pr || t.status == InReview))
            && (u.status == InProgress <==>
                  !pr && (t.status == InProgress || ((t.status == Backlog || t.status == Ready) && word)))
            && (u.status == Ready || u.status == Backlog ==> u.status == t.status)
  {
    if Changes(t, ev, now, sha1) == [] { UnchangedStays(t, ev, now, sha1); }
    var final := FinalText(Mirrored(t.devin, ev), ev);
    assert final == AgentStatus(t, ev);
    FinishedTexts(final);
    StatusMoves(t.status, NewPr(t, ev) != "", FinishedText(final), Given(ev.sessionId) || Given(ev.status));
    assert Applied(t, ev, now, sha1).status == Updated(t, ev, now, sha1).status;
  }

  /** The moves between columns: forward to progress, review or done, and never back. */
  predicate Forward(from: Status, to: Status) {
    || from == to || to == Done
    || (to == InReview && from != Done)
    || (to == InProgress && (from == Backlog || from == Ready))
  }

  /** An event moves a ticket along the board, to progress, review or done, or leaves it where it is. */
  lemma MovesForward(t: Ticket, ev: DevinEvent, now: int, sha1: Preimage -> string)
    ensures Forward(t.status, Applied(t, ev, now, sha1).status)
    ensures forall from, to :: Forward(from, to) <==> from == to || (Rank(from) < Rank(to) && to != Ready)
  {
    StatusExactly(t, ev, now, sha1);
  }

  lemma AbsentIsEmpty(ev: DevinEvent, sha1: Preimage -> string)
    ensures MessageIdOf(ev.(sessionId := None), sha1) == MessageIdOf(ev.(sessionId := Some("")), sha1)
    ensures MessageIdOf(ev.(status := None), sha1) == MessageIdOf(ev.(status := Some("")), sha1)
    ensures ev.messageId in {None, Some("")} && ev.messageAt.None? ==>
              MessageIdOf(ev, sha1) ==
              sha1(Untimed(match ev.sessionId case Some(s) => s case None => "",
                           match ev.status case Some(s) => s case None => "", MessageOf(ev)))
  {
  }

  /** The first `n` characters of a text. */
  function First(s: string, n: nat): string { s[..if |s| < n then |s| else n] }

  /**
   * What an event stores: the session, its address and its status as far as they are given; a pull request of at most
   * 2000 characters; and for a new message a comment of at most 20,000 characters, with a preview of at most 500.
   */
  lemma StoredExactly(t: Ticket, ev: DevinEvent, now: int, actor: string, sha1: Preimage -> string)
    ensures var u := Applied(t, ev, now, sha1);
            var body, pr := Strip(First(ev.message, 20_000)), Strip(First(ev.prUrl, 2000));
            && u.key == t.key && u.devin.dispatchedAt == t.devin.dispatchedAt && u.devin.lastPolledAt == t.devin.lastPolledAt
            && u.devin.sessionId == (if ev.sessionId in {None, Some("")} then t.devin.sessionId else ev.sessionId)
            && u.devin.sessionUrl == (if ev.sessionUrl in {None, Some("")} then t.devin.sessionUrl else ev.sessionUrl)
            && u.devin.status == (if ev.status in {None, Some("")} then t.devin.status else ev.status)
            && u.prUrl == (if pr == "" then t.prUrl else pr)
            && (Unseen(t, ev, sha1) <==> body != "" && MessageIdOf(ev, sha1) !in t.devin.seen)
            && (Unseen(t, ev, sha1) ==>
                  var at := match ev.messageAt case Some(x) => x case None => now;
                  && Posted(t, ev, now, actor, sha1) == [Comment(t.key, actor, body, at)]
                  && u.devin.lastMessage == Some(First(body, 500)) && u.devin.lastMessageAt == Some(at))
            && (!Unseen(t, ev, sha1) ==>
                  && Posted(t, ev, now, actor, sha1) == []
                  && u.devin.lastMessage == t.devin.lastMessage && u.devin.lastMessageAt == t.devin.lastMessageAt)
  {
    if Changes(t, ev, now, sha1) == [] { UnchangedStays(t, ev, now, sha1); }
    assert First(ev.message, 20_000) == Truncated(ev.message, MESSAGE_LIMIT);
    assert First(ev.prUrl, 2000) == Truncated(ev.prUrl, URL_LIMIT);
    assert First(MessageOf(ev), 500) == Truncated(MessageOf(ev), PREVIEW_LIMIT);
  }

  lemma RemembersLast(seen: seq<string>, id: string)
    ensures id in Suffix(seen + [id], 500)
  {
    var s := Suffix(seen + [id], 500);
    assert s[|s| - 1] == id;
  }

  /** The same event twice in a row is the same as once: nothing is written and nothing is posted. */
  lemma TwiceIsOnce(t: Ticket, ev: DevinEvent, now: int, later: int, actor: string, sha1: Preimage -> string)
    ensures var u := Applied(t, ev, now, sha1);
            && Applied(u, ev, later, sha1) == u
            && Changes(u, ev, later, sha1) == [] && Posted(u, ev, later, actor, sha1) == []
  {
    var u := Applied(t, ev, now, sha1);
    if Changes(t, ev, now, sha1) == [] { UnchangedStays(t, ev, now, sha1); }
    RemembersLast(t.devin.seen, MessageIdOf(ev, sha1));
    assert !Unseen(u, ev, sha1);
    assert u.prUrl == NewPr(t, ev) == NewPr(u, ev);
    assert FinalText(Mirrored(u.devin, ev), ev) == FinalText(u.devin, ev);
  }

  // ---- runs ----

  /** What may happen to a ticket: an event, the answer to a dispatch, or the poller's time stamp. */
  datatype Step =
    | Inbound(ev: DevinEvent, now: int)
    | Dispatched(ok: bool, session: Option<(string, string, string)>, now: int)
    | Polled(now: int)

  /** The status change in `dispatchToDevin`. */
  function AfterDispatch(t: Ticket, ok: bool, session: Option<(string, string, string)>, now: int): Ticket {
    if !ok then t.(devin := t.devin.(dispatchedAt := None), updatedAt := now)
    else
      var d := t.devin.(dispatchedAt := Some(now));
      t.(devin := match session
                  case Some(s) => d.(sessionId := Some(s.0), sessionUrl := Some(s.1), status := Some(s.2))
                  case None => d.(status := if d.status.Some? then d.status else Some("dispatched")),
         status := if t.status == Backlog || t.status == Ready then InProgress else t.status,
         updatedAt := now)
  }

  /** A ticket and the ids of the messages that were posted as comments, oldest first. */
  datatype Mirror = Mirror(ticket: Ticket, posted: seq<string>)

  function Next(m: Mirror, step: Step, sha1: Preimage -> string): Mirror {
    match step
    case Inbound(ev, now) =>
      Mirror(Applied(m.ticket, ev, now, sha1),
             m.posted + if Unseen(m.ticket, ev, sha1) then [MessageIdOf(ev, sha1)] else [])
    case Dispatched(ok, session, now) => m.(ticket := AfterDispatch(m.ticket, ok, session, now))
    case Polled(now) => m.(ticket := m.ticket.(devin := m.ticket.devin.(lastPolledAt := Some(now))))
  }

  function After(t: Ticket, steps: seq<Step>, sha1: Preimage -> string): Mirror {
    if steps == [] then Mirror(t, []) else Next(After(t, steps[..|steps| - 1], sha1), steps[|steps| - 1], sha1)
  }

  /**
   * A dispatch that succeeds moves an unstarted ticket to progress and attaches the session, or marks the ticket as
   * dispatched when there is neither a session nor an earlier status; one that fails moves nothing.
   */
  lemma DispatchExactly(t: Ticket, session: Option<(string, string, string)>, now: int)
    ensures var u := AfterDispatch(t, true, session, now);
            && u.status == (if t.status in {Backlog, Ready} then InProgress else t.status)
            && u.devin.dispatchedAt == Some(now) && u.prUrl == t.prUrl && u.devin.seen == t.devin.seen
            && (session.Some? ==> u.devin.sessionId == Some(session.value.0) && u.devin.sessionUrl == Some(session.value.1)
                                  && u.devin.status == Some(session.value.2))
            && (session.None? ==> u.devin.sessionId == t.devin.sessionId && u.devin.sessionUrl == t.devin.sessionUrl)
            && (session.None? && t.devin.status.None? ==> u.devin.status == Some("dispatched"))
            && (session.None? && t.devin.status.Some? ==> u.devin.status == t.devin.status)
    ensures var u := AfterDispatch(t, false, session, now);
            u == t.(devin := t.devin.(dispatchedAt := None), updatedAt := now)
  {
  }

  /** Over any run the status never moves backwards. */
  lemma {:induction false} RunNeverBackwards(t: Ticket, steps: seq<Step>, n: nat, sha1: Preimage -> string)
    requires n <= |steps|
    ensures Rank(After(t, steps[..n], sha1).ticket.status) <= Rank(After(t, steps, sha1).ticket.status)
    decreases |steps|
  {
    if n < |steps| {
      var front := steps[..|steps| - 1];
      RunNeverBackwards(t, front, n, sha1);
      assert front[..n] == steps[..n];
      var m, step := After(t, front, sha1), steps[|steps| - 1];
      if step.Inbound? { NeverBackwards(m.ticket, step.ev, step.now, sha1); }
    } else {
      assert steps[..n] == steps;
    }
  }

  /** A step that brings the word of a finished session to a ticket with a pull request. */
  ghost predicate Finishes(m: Mirror, step: Step) {
    && step.Inbound? && AgentStatus(m.ticket, step.ev) in {Some("finished"), Some("done"), Some("completed")}
    && (m.ticket.prUrl != "" || PrUrlOf(step.ev) != "")
  }

  lemma {:induction false} DoneStays(t: Ticket, steps: seq<Step>, n: nat, sha1: Preimage -> string)
    requires n <= |steps| && After(t, steps[..n], sha1).ticket.status == Done
    ensures After(t, steps, sha1).ticket.status == Done
    decreases |steps|
  {
    if n < |steps| {
      var front, step := steps[..|steps| - 1], steps[|steps| - 1];
      assert front[..n] == steps[..n];
      DoneStays(t, front, n, sha1);
      if step.Inbound? { StatusExactly(After(t, front, sha1).ticket, step.ev, step.now, sha1); }
    } else {
      assert steps[..n] == steps;
    }
  }

  /** Once a finished session has a pull request the ticket is done, whatever follows. */
  lemma FinishedIsDone(t: Ticket, steps: seq<Step>, n: nat, sha1: Preimage -> string)
    requires n < |steps| && Finishes(After(t, steps[..n], sha1), steps[n])
    ensures After(t, steps, sha1).ticket.status == Done
  {
    var upTo := steps[..n + 1];
    assert upTo[..n] == steps[..n];
    StatusExactly(After(t, steps[..n], sha1).ticket, steps[n].ev, steps[n].now, sha1);
    DoneStays(t, steps, n + 1, sha1);
  }

  /** A ticket that starts without a pull request is in review or done whenever it has one, over any run. */
  lemma {:induction false} RunPrMeansReview(t: Ticket, steps: seq<Step>, sha1: Preimage -> string)
    requires t.prUrl == ""
    ensures var u := After(t, steps, sha1).ticket; u.prUrl != "" ==> u.status == InReview || u.status == Done
  {
    if steps == [] {
    } else {
      var front, step := steps[..|steps| - 1], steps[|steps| - 1];
      RunPrMeansReview(t, front, sha1);
      if step.Inbound? { PrMeansReview(After(t, front, sha1).ticket, step.ev, step.now, sha1); }
    }
  }

  lemma SuffixOfAppend(posted: seq<string>, id: string)
    ensures Suffix(Suffix(posted, 500) + [id], 500) == Suffix(posted + [id], 500)
  {
  }

  lemma NextRemembers(m: Mirror, step: Step, sha1: Preimage -> string)
    requires m.ticket.devin.seen == Suffix(m.posted, 500)
    ensures var n := Next(m, step, sha1); n.ticket.devin.seen == Suffix(n.posted, 500)
  {
    if step.Inbound? && Unseen(m.ticket, step.ev, sha1) { SuffixOfAppend(m.posted, MessageIdOf(step.ev, sha1)); }
  }

  /**
   * What a ticket remembers are the last 500 posted ids. So an event posts a comment exactly when its message is not
   * blank and its id is not among the last 500 posted.
   */
  lemma {:induction false} RemembersSuffix(t: Ticket, steps: seq<Step>, sha1: Preimage -> string)
    requires t.devin.seen == []
    ensures After(t, steps, sha1).ticket.devin.seen == Suffix(After(t, steps, sha1).posted, 500)
  {
    if steps == [] {
    } else {
      var front, step := steps[..|steps| - 1], steps[|steps| - 1];
      RemembersSuffix(t, front, sha1);
      NextRemembers(After(t, front, sha1), step, sha1);
    }
  }

  /** The ids of the messages that the first `n` steps bring. */
  ghost function Ids(steps: seq<Step>, sha1: Preimage -> string): set<string> {
    set i | 0 <= i < |steps| && Brings(steps[i]) :: MessageIdOf(steps[i].ev, sha1)
  }

  predicate Brings(step: Step) { step.Inbound? && MessageOf(step.ev) != "" }

  ghost predicate NoRepeats(ids: seq<string>) { forall i, j :: 0 <= i < j < |ids| ==> ids[i] != ids[j] }

  ghost function Elements(ids: seq<string>): set<string> { set x | x in ids }

  lemma {:induction false} NoRepeatsSize(ids: seq<string>)
    requires NoRepeats(ids)
    ensures |ids| == |Elements(ids)|
  {
    if ids == [] {
    } else {
      var front, last := ids[..|ids| - 1], ids[|ids| - 1];
      NoRepeatsSize(front);
      assert ids == front + [last];
      assert Elements(ids) == Elements(front) + {last};
    }
  }

  lemma SubsetSize(a: set<string>, b: set<string>)
    requires a <= b
    ensures |a| <= |b|
  {
    assert b == a + (b - a);
  }

  lemma IdsOfPrefix(steps: seq<Step>, sha1: Preimage -> string)
    requires steps != []
    ensures var front, step := steps[..|steps| - 1], steps[|steps| - 1];
            Ids(steps, sha1) == Ids(front, sha1) + if Brings(step) then {MessageIdOf(step.ev, sha1)} else {}
  {
  }

  /** The list and the set of ids that a step leads to when every posted id is remembered. */
  lemma PostNext(posted: seq<string>, id: string, posts: bool)
    requires NoRepeats(posted) && (posts ==> id !in posted)
    ensures var next := posted + if posts then [id] else [];
            NoRepeats(next) && Elements(next) == Elements(posted) + if posts then {id} else {}
  {
    if posts { assert Elements(posted + [id]) == Elements(posted) + {id}; }
  }

  lemma StepPosts(m: Mirror, step: Step, sha1: Preimage -> string)
    requires m.ticket.devin.seen == m.posted && NoRepeats(m.posted)
    ensures var next := Next(m, step, sha1).posted;
            && NoRepeats(next)
            && Elements(next) == Elements(m.posted) + if Brings(step) then {MessageIdOf(step.ev, sha1)} else {}
  {
    if step.Inbound? {
      var id := MessageIdOf(step.ev, sha1);
      PostNext(m.posted, id, Unseen(m.ticket, step.ev, sha1));
      if Brings(step) && id in m.posted { assert Elements(m.posted) == Elements(m.posted) + {id}; }
    }
  }

  lemma ShortSuffix(t: Ticket, steps: seq<Step>, sha1: Preimage -> string)
    requires t.devin.seen == [] && |Ids(steps, sha1)| <= 500
    requires NoRepeats(After(t, steps, sha1).posted) && Elements(After(t, steps, sha1).posted) == Ids(steps, sha1)
    ensures After(t, steps, sha1).ticket.devin.seen == After(t, steps, sha1).posted
  {
    RemembersSuffix(t, steps, sha1);
    NoRepeatsSize(After(t, steps, sha1).posted);
  }

  /**
   * With at most 500 distinct message ids, every message is posted exactly once, however often and in whatever order
   * it is delivered.
   */
  lemma {:induction false} PostedExactlyOnce(t: Ticket, steps: seq<Step>, sha1: Preimage -> string)
    requires t.devin.seen == [] && |Ids(steps, sha1)| <= 500
    ensures NoRepeats(After(t, steps, sha1).posted)
    ensures Elements(After(t, steps, sha1).posted) == Ids(steps, sha1)
  {
    if steps == [] {
    } else {
      var front := steps[..|steps| - 1];
      IdsOfPrefix(steps, sha1);
      SubsetSize(Ids(front, sha1), Ids(steps, sha1));
      PostedExactlyOnce(t, front, sha1);
      ShortSuffix(t, front, sha1);
      StepPosts(After(t, front, sha1), steps[|steps| - 1], sha1);
    }
  }

  /** Beyond 500 ids the oldest one is forgotten, and a redelivery of it is posted again. */
  lemma ForgottenBeyondLimit(t: Ticket, ev: DevinEvent, oldest: DevinEvent, now: int, sha1: Preimage -> string)
    requires |t.devin.seen| == 500 && NoRepeats(t.devin.seen)
    requires Unseen(t, ev, sha1) && MessageOf(oldest) != "" && MessageIdOf(oldest, sha1) == t.devin.seen[0]
    ensures !Unseen(t, oldest, sha1)
    ensures Unseen(Applied(t, ev, now, sha1), oldest, sha1)
  {
    var u := Applied(t, ev, now, sha1);
    assert u.devin.seen == t.devin.seen[1..] + [MessageIdOf(ev, sha1)];
  }

  // ---- the comments of a run ----

  function StepComments(m: Mirror, step: Step, actor: string, sha1: Preimage -> string): seq<Comment> {
    if step.Inbound? then Posted(m.ticket, step.ev, step.now, actor, sha1) else []
  }

  /** The comments that a run adds for the agent's messages. */
  function Posts(t: Ticket, steps: seq<Step>, actor: string, sha1: Preimage -> string): seq<Comment> {
    if steps == [] then []
    else
      var front := steps[..|steps| - 1];
      Posts(t, front, actor, sha1) + StepComments(After(t, front, sha1), steps[|steps| - 1], actor, sha1)
  }

  /** A comment carries the message of a step that brings the id. */
  ghost predicate Carries(c: Comment, id: string, steps: seq<Step>, sha1: Preimage -> string) {
    exists i :: 0 <= i < |steps| && Brings(steps[i]) &&
                MessageIdOf(steps[i].ev, sha1) == id && c.body == MessageOf(steps[i].ev)
  }

  lemma StepComment(m: Mirror, step: Step, actor: string, sha1: Preimage -> string)
    ensures |StepComments(m, step, actor, sha1)| == |Next(m, step, sha1).posted| - |m.posted| <= 1
    ensures m.posted <= Next(m, step, sha1).posted
    ensures StepComments(m, step, actor, sha1) != [] ==>
              && Brings(step) && StepComments(m, step, actor, sha1)[0].body == MessageOf(step.ev)
              && Next(m, step, sha1).posted[|m.posted|] == MessageIdOf(step.ev, sha1)
  {
  }

  /** A run adds exactly one comment for every id it posts, with the message that the id came with. */
  lemma {:induction false} OneCommentPerId(t: Ticket, steps: seq<Step>, actor: string, sha1: Preimage -> string)
    ensures var posted, comments := After(t, steps, sha1).posted, Posts(t, steps, actor, sha1);
            && |comments| == |posted|
            && forall k :: 0 <= k < |comments| ==> Carries(comments[k], posted[k], steps, sha1)
  {
    if steps == [] {
    } else {
      var front, step := steps[..|steps| - 1], steps[|steps| - 1];
      var m := After(t, front, sha1);
      OneCommentPerId(t, front, actor, sha1);
      StepComment(m, step, actor, sha1);
      CarriesLonger(Posts(t, front, actor, sha1), m.posted, steps, sha1);
    }
  }

  lemma CarriesLonger(comments: seq<Comment>, ids: seq<string>, steps: seq<Step>, sha1: Preimage -> string)
    requires |comments| == |ids| && steps != []
    requires forall k :: 0 <= k < |comments| ==> Carries(comments[k], ids[k], steps[..|steps| - 1], sha1)
    ensures forall k :: 0 <= k < |comments| ==> Carries(comments[k], ids[k], steps, sha1)
  {
    forall k | 0 <= k < |comments|
      ensures Carries(comments[k], ids[k], steps, sha1)
    {
      var front := steps[..|steps| - 1];
      var i :| 0 <= i < |front| && Brings(front[i]) &&
               MessageIdOf(front[i].ev, sha1) == ids[k] && comments[k].body == MessageOf(front[i].ev);
      assert steps[i] == front[i];
    }
  }

  // ---- a poll as a run ----

  /** The steps that one poll of a ticket takes. */
  function PollSteps(session: Session, ms: seq<SessionMessage>, now: int): seq<Step> {
    MessageSteps(session, ms, now) + [Inbound(SessionEvent(session), now)] + [Polled(now)]
  }

  function MessageSteps(session: Session, ms: seq<SessionMessage>, now: int): (steps: seq<Step>)
    ensures |steps| == |ms|
  {
    seq(|ms|, i requires 0 <= i < |ms| => Inbound(MessageEvent(session, ms[i]), now))
  }

  lemma AfterPush(t: Ticket, steps: seq<Step>, step: Step, sha1: Preimage -> string)
    ensures After(t, steps + [step], sha1) == Next(After(t, steps, sha1), step, sha1)
  {
    assert (steps + [step])[..|steps|] == steps;
  }

  lemma AppliedInStore(s: Store, key: string, ev: DevinEvent, now: int, m: Mirror, sha1: Preimage -> string)
    requires key in s.tickets && s.tickets[key] == m.ticket
    ensures AppliedStore(s, key, ev, now, DEVIN, sha1).tickets == s.tickets[key := Next(m, Inbound(ev, now), sha1).ticket]
    ensures AppliedStore(s, key, ev, now, DEVIN, sha1).comments == s.comments + Posted(m.ticket, ev, now, DEVIN, sha1)
  {
  }

  lemma SetTwice(tickets: map<string, Ticket>, key: string, a: Ticket, b: Ticket)
    ensures tickets[key := a][key := b] == tickets[key := b]
  {
  }

  lemma NextMessage(s: Store, key: string, session: Session, ms: seq<SessionMessage>, now: int, m: Mirror,
                    sha1: Preimage -> string)
    requires key in s.tickets && ms != []
    requires MessagesStore(s, key, session, ms[..|ms| - 1], now, sha1).tickets == s.tickets[key := m.ticket]
    ensures MessagesStore(s, key, session, ms, now, sha1).tickets ==
            s.tickets[key := Next(m, Inbound(MessageEvent(session, ms[|ms| - 1]), now), sha1).ticket]
  {
    var ev := MessageEvent(session, ms[|ms| - 1]);
    AppliedInStore(MessagesStore(s, key, session, ms[..|ms| - 1], now, sha1), key, ev, now, m, sha1);
    SetTwice(s.tickets, key, m.ticket, Next(m, Inbound(ev, now), sha1).ticket);
  }

  lemma MessageStepsPush(session: Session, ms: seq<SessionMessage>, now: int)
    requires ms != []
    ensures MessageSteps(session, ms, now) ==
            MessageSteps(session, ms[..|ms| - 1], now) + [Inbound(MessageEvent(session, ms[|ms| - 1]), now)]
  {
  }

  lemma {:induction false} MessagesAreSteps(s: Store, key: string, session: Session, ms: seq<SessionMessage>, now: int,
                                            sha1: Preimage -> string)
    requires key in s.tickets
    ensures MessagesStore(s, key, session, ms, now, sha1).tickets ==
            s.tickets[key := After(s.tickets[key], MessageSteps(session, ms, now), sha1).ticket]
  {
    if ms == [] {
      assert After(s.tickets[key], [], sha1).ticket == s.tickets[key];
    } else {
      var front, step := ms[..|ms| - 1], Inbound(MessageEvent(session, ms[|ms| - 1]), now);
      var m := After(s.tickets[key], MessageSteps(session, front, now), sha1);
      MessagesAreSteps(s, key, session, front, now, sha1);
      NextMessage(s, key, session, ms, now, m, sha1);
      MessageStepsPush(session, ms, now);
      AfterPush(s.tickets[key], MessageSteps(session, front, now), step, sha1);
    }
  }

  lemma PostsPush(t: Ticket, steps: seq<Step>, step: Step, sha1: Preimage -> string)
    ensures Posts(t, steps + [step], DEVIN, sha1) ==
            Posts(t, steps, DEVIN, sha1) + StepComments(After(t, steps, sha1), step, DEVIN, sha1)
  {
    assert (steps + [step])[..|steps|] == steps;
  }

  lemma NextMessageComments(s: Store, key: string, session: Session, ms: seq<SessionMessage>, now: int, m: Mirror,
                            sha1: Preimage -> string)
    requires key in s.tickets && ms != []
    requires MessagesStore(s, key, session, ms[..|ms| - 1], now, sha1).tickets == s.tickets[key := m.ticket]
    ensures MessagesStore(s, key, session, ms, now, sha1).comments ==
            MessagesStore(s, key, session, ms[..|ms| - 1], now, sha1).comments +
            StepComments(m, Inbound(MessageEvent(session, ms[|ms| - 1]), now), DEVIN, sha1)
  {
    AppliedInStore(MessagesStore(s, key, session, ms[..|ms| - 1], now, sha1), key,
                   MessageEvent(session, ms[|ms| - 1]), now, m, sha1);
  }

  lemma {:induction false} MessagesPost(s: Store, key: string, session: Session, ms: seq<SessionMessage>, now: int,
                                        sha1: Preimage -> string)
    requires key in s.tickets
    ensures MessagesStore(s, key, session, ms, now, sha1).comments ==
            s.comments + Posts(s.tickets[key], MessageSteps(session, ms, now), DEVIN, sha1)
  {
    var t := s.tickets[key];
    if ms == [] {
      assert Posts(t, [], DEVIN, sha1) == [];
    } else {
      var front, step := ms[..|ms| - 1], Inbound(MessageEvent(session, ms[|ms| - 1]), now);
      var steps := MessageSteps(session, front, now);
      MessagesPost(s, key, session, front, now, sha1);
      MessagesAreSteps(s, key, session, front, now, sha1);
      NextMessageComments(s, key, session, ms, now, After(t, steps, sha1), sha1);
      MessageStepsPush(session, ms, now);
      PostsPush(t, steps, step, sha1);
    }
  }

  lemma PollPosts(s: Store, t: Ticket, key: string, session: Session, ms: seq<SessionMessage>, now: int,
                  sha1: Preimage -> string)
    requires key in s.tickets && s.tickets[key] == After(t, MessageSteps(session, ms, now), sha1).ticket
    ensures FinishedPoll(s, key, session, now, sha1).comments ==
            s.comments +
            StepComments(After(t, MessageSteps(session, ms, now), sha1), Inbound(SessionEvent(session), now), DEVIN, sha1)
    ensures Posts(t, PollSteps(session, ms, now), DEVIN, sha1) ==
            Posts(t, MessageSteps(session, ms, now), DEVIN, sha1) +
            StepComments(After(t, MessageSteps(session, ms, now), sha1), Inbound(SessionEvent(session), now), DEVIN, sha1)
  {
    var steps, ev := MessageSteps(session, ms, now), SessionEvent(session);
    AppliedInStore(s, key, ev, now, After(t, steps, sha1), sha1);
    PostsPush(t, steps, Inbound(ev, now), sha1);
    PostsPush(t, steps + [Inbound(ev, now)], Polled(now), sha1);
  }

  lemma PollFinishes(s: Store, tickets: map<string, Ticket>, key: string, session: Session, now: int, m: Mirror,
                     sha1: Preimage -> string)
    requires s.tickets == tickets[key := m.ticket]
    ensures var next := Next(m, Inbound(SessionEvent(session), now), sha1);
            FinishedPoll(s, key, session, now, sha1).tickets ==
            tickets[key := Next(next, Polled(now), sha1).ticket]
  {
    var ev := SessionEvent(session);
    AppliedInStore(s, key, ev, now, m, sha1);
    SetTwice(tickets, key, m.ticket, Next(m, Inbound(ev, now), sha1).ticket);
  }

  lemma PollStepsAfter(t: Ticket, session: Session, ms: seq<SessionMessage>, now: int, sha1: Preimage -> string)
    ensures After(t, PollSteps(session, ms, now), sha1) ==
            Next(Next(After(t, MessageSteps(session, ms, now), sha1), Inbound(SessionEvent(session), now), sha1),
                 Polled(now), sha1)
  {
    var steps, ev := MessageSteps(session, ms, now), SessionEvent(session);
    AfterPush(t, steps, Inbound(ev, now), sha1);
    AfterPush(t, steps + [Inbound(ev, now)], Polled(now), sha1);
  }

  /** The store after a poll, from the store after its messages. */
  function FinishedPoll(s: Store, key: string, session: Session, now: int, sha1: Preimage -> string): Store
    requires key in s.tickets
  {
    Stamped(AppliedStore(s, key, SessionEvent(session), now, DEVIN, sha1), key, now)
  }

  lemma PollTickets(s: Store, key: string, session: Session, ms: seq<SessionMessage>, now: int, sha1: Preimage -> string)
    requires key in s.tickets
    ensures FinishedPoll(MessagesStore(s, key, session, ms, now, sha1), key, session, now, sha1).tickets ==
            s.tickets[key := After(s.tickets[key], PollSteps(session, ms, now), sha1).ticket]
  {
    MessagesAreSteps(s, key, session, ms, now, sha1);
    PollFinishes(MessagesStore(s, key, session, ms, now, sha1), s.tickets, key, session, now,
                 After(s.tickets[key], MessageSteps(session, ms, now), sha1), sha1);
    PollStepsAfter(s.tickets[key], session, ms, now, sha1);
  }

  lemma PollComments(s: Store, key: string, session: Session, ms: seq<SessionMessage>, now: int, sha1: Preimage -> string)
    requires key in s.tickets
    ensures FinishedPoll(MessagesStore(s, key, session, ms, now, sha1), key, session, now, sha1).comments ==
            s.comments + Posts(s.tickets[key], PollSteps(session, ms, now), DEVIN, sha1)
  {
    MessagesAreSteps(s, key, session, ms, now, sha1);
    MessagesPost(s, key, session, ms, now, sha1);
    PollPosts(MessagesStore(s, key, session, ms, now, sha1), s.tickets[key], key, session, ms, now, sha1);
  }

  /** The unseen messages of a poll, in the order of time. */
  function PollMessages(s: Store, key: string, messages: seq<SessionMessage>): seq<SessionMessage>
    requires key in s.tickets
  {
    SortByTime(FreshMessages(messages, s.tickets[key].devin.seen))
  }

  /**
   * A poll of a ticket is a run of steps on it, in the order of time, so all that holds of runs holds of polls; it adds
   * the comments of that run, and other tickets are untouched.
   */
  lemma PollIsARun(s: Store, key: string, session: Session, messages: seq<SessionMessage>, now: int,
                   sha1: Preimage -> string)
    requires key in s.tickets
    ensures ByTime(PollMessages(s, key, messages))
    ensures var steps := PollSteps(session, PollMessages(s, key, messages), now);
            var polled := PolledStore(s, key, session, messages, now, sha1);
            && polled.tickets == s.tickets[key := After(s.tickets[key], steps, sha1).ticket]
            && polled.comments == s.comments + Posts(s.tickets[key], steps, DEVIN, sha1)
  {
    SortedByTime(FreshMessages(messages, s.tickets[key].devin.seen));
    PollTickets(s, key, session, PollMessages(s, key, messages), now, sha1);
    PollComments(s, key, session, PollMessages(s, key, messages), now, sha1);
  }

  // ---- what a poll stores ----

  /** Messages alone attach the session, and change neither the agent's status nor the pull request. */
  lemma {:induction false} MessagesKeep(t: Ticket, session: Session, ms: seq<SessionMessage>, now: int,
                                        sha1: Preimage -> string)
    ensures var u := After(t, MessageSteps(session, ms, now), sha1).ticket;
            && u.prUrl == t.prUrl && u.devin.status == t.devin.status && u.key == t.key
            && u.devin.sessionId in {t.devin.sessionId, Some(session.id)}
            && u.devin.sessionUrl in {t.devin.sessionUrl, Some(session.url)}
            && (ms == [] || session.id == "" ==> u.devin.sessionId == t.devin.sessionId)
            && (ms == [] || session.url == "" ==> u.devin.sessionUrl == t.devin.sessionUrl)
            && (ms != [] && session.id != "" ==> u.devin.sessionId == Some(session.id))
            && (ms != [] && session.url != "" ==> u.devin.sessionUrl == Some(session.url))
  {
    if ms != [] {
      var front, ev := ms[..|ms| - 1], MessageEvent(session, ms[|ms| - 1]);
      MessagesKeep(t, session, front, now, sha1);
      MessageStepsPush(session, ms, now);
      AfterPush(t, MessageSteps(session, front, now), Inbound(ev, now), sha1);
      StoredExactly(After(t, MessageSteps(session, front, now), sha1).ticket, ev, now, DEVIN, sha1);
      EmptyText();
    }
  }

  lemma EmptyText()
    ensures Strip(First("", 2000)) == "" && Strip(First("", 20_000)) == ""
  {
  }

  /** The messages of the session have left a ticket as they found it, or with the session attached. */
  ghost predicate BeforeState(t: Ticket, u: Ticket, session: Session) {
    && u.prUrl == t.prUrl && u.devin.status == t.devin.status
    && u.devin.sessionId in {t.devin.sessionId, Some(session.id)}
    && u.devin.sessionUrl in {t.devin.sessionUrl, Some(session.url)}
    && (session.id == "" ==> u.devin.sessionId == t.devin.sessionId)
    && (session.url == "" ==> u.devin.sessionUrl == t.devin.sessionUrl)
  }

  /** The ticket carries the session as far as it is given, and is done when that is finished with a pull request. */
  ghost predicate Attached(t: Ticket, u: Ticket, session: Session) {
    var pr := Strip(First(session.prUrl, 2000));
    && u.devin.sessionId == (if session.id == "" then t.devin.sessionId else Some(session.id))
    && u.devin.sessionUrl == (if session.url == "" then t.devin.sessionUrl else Some(session.url))
    && u.devin.status == (if session.status == "" then t.devin.status else Some(session.status))
    && u.prUrl == (if pr == "" then t.prUrl else pr)
    && (u.prUrl != "" && session.status in {"finished", "done", "completed"} ==> u.status == Done)
  }

  lemma StateAttaches(t: Ticket, u: Ticket, session: Session, now: int, sha1: Preimage -> string)
    requires BeforeState(t, u, session)
    ensures Attached(t, Applied(u, SessionEvent(session), now, sha1), session)
  {
    StoredExactly(u, SessionEvent(session), now, DEVIN, sha1);
    StatusExactly(u, SessionEvent(session), now, sha1);
  }

  /**
   * After a poll the ticket carries the session, its address, its status and its pull request, as far as they are
   * given, and the time of the poll; and it is done when the session is finished and there is a pull request.
   */
  lemma PollAttaches(s: Store, key: string, session: Session, messages: seq<SessionMessage>, now: int,
                     sha1: Preimage -> string)
    requires key in s.tickets
    ensures var polled := PolledStore(s, key, session, messages, now, sha1).tickets;
            key in polled && polled[key].devin.lastPolledAt == Some(now) && Attached(s.tickets[key], polled[key], session)
  {
    var t, ms := s.tickets[key], PollMessages(s, key, messages);
    PollIsARun(s, key, session, messages, now, sha1);
    PollStepsAfter(t, session, ms, now, sha1);
    MessagesKeep(t, session, ms, now, sha1);
    StateAttaches(t, After(t, MessageSteps(session, ms, now), sha1).ticket, session, now, sha1);
  }

  /** The comment of a message, as the poller posts it. */
  ghost predicate IsMirrorOf(c: Comment, key: string, m: SessionMessage) {
    c == Comment(key, "devin", Strip(First(m.text, 20_000)), m.createdAt)
  }

  lemma {:induction false} MessageComments(t: Ticket, session: Session, ms: seq<SessionMessage>, now: int,
                                           sha1: Preimage -> string)
    ensures forall c :: c in Posts(t, MessageSteps(session, ms, now), DEVIN, sha1) ==>
              exists m :: m in ms && IsMirrorOf(c, t.key, m)
  {
    if ms != [] {
      var front, last := ms[..|ms| - 1], ms[|ms| - 1];
      var steps, ev := MessageSteps(session, front, now), MessageEvent(session, last);
      MessageComments(t, session, front, now, sha1);
      MessageStepsPush(session, ms, now);
      PostsPush(t, steps, Inbound(ev, now), sha1);
      MessagesKeep(t, session, front, now, sha1);
      StoredExactly(After(t, steps, sha1).ticket, ev, now, DEVIN, sha1);
      assert last in ms && forall m :: m in front ==> m in ms;
      assert forall c :: c in StepComments(After(t, steps, sha1), Inbound(ev, now), DEVIN, sha1) ==>
        IsMirrorOf(c, t.key, last);
    }
  }

  /** Every comment that a poll adds is the agent's, and mirrors an unseen agent message of the session. */
  lemma PollComment(s: Store, key: string, session: Session, messages: seq<SessionMessage>, now: int,
                    sha1: Preimage -> string)
    requires key in s.tickets
    ensures var t, polled := s.tickets[key], PolledStore(s, key, session, messages, now, sha1);
            && s.comments <= polled.comments
            && forall c :: c in polled.comments[|s.comments|..] ==>
                 exists m :: m in messages && m.fromDevin && m.eventId !in t.devin.seen && IsMirrorOf(c, t.key, m)
  {
    var t, ms := s.tickets[key], PollMessages(s, key, messages);
    PollIsARun(s, key, session, messages, now, sha1);
    MessageComments(t, session, ms, now, sha1);
    var steps, ev := MessageSteps(session, ms, now), SessionEvent(session);
    PostsPush(t, steps, Inbound(ev, now), sha1);
    PostsPush(t, steps + [Inbound(ev, now)], Polled(now), sha1);
    BlankEvent(session);
    assert Posts(t, PollSteps(session, ms, now), DEVIN, sha1) == Posts(t, steps, DEVIN, sha1);
  }

  // ---- nothing is forgotten below the limit ----

  /** How many steps bring a message. */
  function Brought(steps: seq<Step>): nat {
    if steps == [] then 0 else Brought(steps[..|steps| - 1]) + if Brings(steps[|steps| - 1]) then 1 else 0
  }

  /** A list of remembered ids loses none, and grows only by a message, by one. */
  ghost predicate Grows(before: seq<string>, after: seq<string>, brings: bool) {
    |after| <= |before| + (if brings then 1 else 0) && forall id :: id in before ==> id in after
  }

  lemma StepRemembers(m: Mirror, step: Step, sha1: Preimage -> string)
    requires Brings(step) ==> |m.ticket.devin.seen| < 500
    ensures Grows(m.ticket.devin.seen, Next(m, step, sha1).ticket.devin.seen, Brings(step))
    ensures Brings(step) ==> MessageIdOf(step.ev, sha1) in Next(m, step, sha1).ticket.devin.seen
  {
    if step.Inbound? {
      var t := m.ticket;
      if Changes(t, step.ev, step.now, sha1) == [] { UnchangedStays(t, step.ev, step.now, sha1); }
      assert Applied(t, step.ev, step.now, sha1).devin.seen ==
             t.devin.seen + if Unseen(t, step.ev, sha1) then [MessageIdOf(step.ev, sha1)] else [];
    }
  }

  ghost predicate Remembers(seen: seq<string>, steps: seq<Step>, sha1: Preimage -> string) {
    forall i :: 0 <= i < |steps| && Brings(steps[i]) ==> MessageIdOf(steps[i].ev, sha1) in seen
  }

  lemma RemembersNext(before: seq<string>, after: seq<string>, steps: seq<Step>, sha1: Preimage -> string)
    requires steps != [] && Remembers(before, steps[..|steps| - 1], sha1)
    requires Grows(before, after, Brings(steps[|steps| - 1]))
    requires Brings(steps[|steps| - 1]) ==> MessageIdOf(steps[|steps| - 1].ev, sha1) in after
    ensures Remembers(after, steps, sha1)
  {
    forall i | 0 <= i < |steps| && Brings(steps[i])
      ensures MessageIdOf(steps[i].ev, sha1) in after
    {
      if i < |steps| - 1 { assert steps[..|steps| - 1][i] == steps[i]; }
    }
  }

  /** Up to 500 ids none is forgotten, and every message that a step brings is remembered. */
  lemma {:induction false} NothingForgotten(t: Ticket, steps: seq<Step>, sha1: Preimage -> string)
    requires |t.devin.seen| + Brought(steps) <= 500
    ensures var seen := After(t, steps, sha1).ticket.devin.seen;
            && |seen| <= |t.devin.seen| + Brought(steps)
            && (forall id :: id in t.devin.seen ==> id in seen)
            && Remembers(seen, steps, sha1)
  {
    if steps == [] {
    } else {
      var front, step := steps[..|steps| - 1], steps[|steps| - 1];
      NothingForgotten(t, front, sha1);
      var m := After(t, front, sha1);
      StepRemembers(m, step, sha1);
      RemembersNext(m.ticket.devin.seen, Next(m, step, sha1).ticket.devin.seen, steps, sha1);
    }
  }

  lemma BroughtPush(steps: seq<Step>, step: Step)
    ensures Brought(steps + [step]) == Brought(steps) + if Brings(step) then 1 else 0
  {
    assert (steps + [step])[..|steps|] == steps;
  }

  lemma {:induction false} BroughtAtMost(steps: seq<Step>)
    ensures Brought(steps) <= |steps|
  {
    if steps == [] {
    } else {
      BroughtAtMost(steps[..|steps| - 1]);
    }
  }

  lemma BlankEvent(session: Session)
    ensures MessageOf(SessionEvent(session)) == ""
  {
  }

  /** A poll brings no more messages than it finds unseen. */
  lemma PollBrings(session: Session, ms: seq<SessionMessage>, now: int)
    ensures Brought(PollSteps(session, ms, now)) <= |ms|
  {
    var steps, last := MessageSteps(session, ms, now), Inbound(SessionEvent(session), now);
    BroughtAtMost(steps);
    BlankEvent(session);
    BroughtPush(steps, last);
    BroughtPush(steps + [last], Polled(now));
  }

  lemma MessageIsStep(session: Session, ms: seq<SessionMessage>, now: int, m: SessionMessage, sha1: Preimage -> string)
    returns (i: nat)
    requires m in ms && m.eventId != "" && Strip(Truncated(m.text, 20_000)) != ""
    ensures var steps := PollSteps(session, ms, now);
            i < |steps| && Brings(steps[i]) && MessageIdOf(steps[i].ev, sha1) == m.eventId
  {
    i :| 0 <= i < |ms| && ms[i] == m;
    assert PollSteps(session, ms, now)[i] == Inbound(MessageEvent(session, m), now);
  }

  /**
   * As long as the remembered ids and the unseen messages together stay within the limit, every agent message of the
   * session that is not blank is remembered after the poll, and none that was remembered is forgotten.
   */
  lemma PollMirrorsAll(s: Store, key: string, session: Session, messages: seq<SessionMessage>, now: int,
                       sha1: Preimage -> string, m: SessionMessage)
    requires key in s.tickets
    requires |s.tickets[key].devin.seen| + |FreshMessages(messages, s.tickets[key].devin.seen)| <= 500
    requires m in messages && m.fromDevin && m.eventId != "" && Strip(Truncated(m.text, 20_000)) != ""
    ensures var after := PolledStore(s, key, session, messages, now, sha1).tickets;
            && key in after && m.eventId in after[key].devin.seen
            && forall id :: id in s.tickets[key].devin.seen ==> id in after[key].devin.seen
  {
    var t, unseen := s.tickets[key], PollMessages(s, key, messages);
    PollIsARun(s, key, session, messages, now, sha1);
    PollBrings(session, unseen, now);
    NothingForgotten(t, PollSteps(session, unseen, now), sha1);
    if m.eventId !in t.devin.seen {
      var i := MessageIsStep(session, unseen, now, m, sha1);
    }
  }

  // ---- what is posted again beyond the limit ----

  /** After any run an event posts exactly when its message is not blank and its id is not among the last 500 posted. */
  lemma PostsExactly(t: Ticket, steps: seq<Step>, ev: DevinEvent, sha1: Preimage -> string)
    requires t.devin.seen == []
    ensures var m := After(t, steps, sha1);
            Unseen(m.ticket, ev, sha1) <==> MessageOf(ev) != "" && MessageIdOf(ev, sha1) !in Suffix(m.posted, 500)
  {
    RemembersSuffix(t, steps, sha1);
  }

  function NumberedId(i: nat): string { "m" + Str(i) }

  /** The i-th of a stream of messages with their own ids. */
  function Numbered(i: nat): DevinEvent { DevinEvent(None, None, None, "m", Some(NumberedId(i)), None, "") }

  function NumberedSteps(n: nat): (steps: seq<Step>)
    ensures |steps| == n && forall i :: 0 <= i < n ==> steps[i] == Inbound(Numbered(i), 0)
  {
    seq(n, i requires 0 <= i < n => Inbound(Numbered(i), 0))
  }

  function NumberedIds(n: nat): (ids: seq<string>)
    ensures |ids| == n && forall i :: 0 <= i < n ==> ids[i] == NumberedId(i)
  {
    seq(n, i requires 0 <= i < n => NumberedId(i))
  }

  lemma NumberedDistinct(i: nat, j: nat)
    ensures NumberedId(i) == NumberedId(j) <==> i == j
  {
    ValueOfPadded(i, 1);
    ValueOfPadded(j, 1);
    assert NumberedId(i)[1..] == Str(i) == Padded(i, 1) && NumberedId(j)[1..] == Str(j) == Padded(j, 1);
  }

  lemma NumberedBrings(i: nat, sha1: Preimage -> string)
    ensures MessageOf(Numbered(i)) == "m" && MessageIdOf(Numbered(i), sha1) == NumberedId(i)
  {
    assert NumberedId(i)[0] == 'm';
    assert RstripSpace("m") == "m" && Lstrip("m") == "m";
  }

  lemma NumberedNew(n: nat)
    ensures NumberedId(n) !in NumberedIds(n)
  {
    forall i: nat | i < n
      ensures NumberedIds(n)[i] != NumberedId(n)
    {
      NumberedDistinct(i, n);
    }
  }

  lemma NumberedNext(m: Mirror, n: nat, sha1: Preimage -> string)
    requires m.posted == NumberedIds(n) && Unseen(m.ticket, Numbered(n), sha1)
    ensures Next(m, Inbound(Numbered(n), 0), sha1).posted == NumberedIds(n + 1)
  {
    NumberedBrings(n, sha1);
    assert NumberedIds(n + 1) == NumberedIds(n) + [NumberedId(n)];
  }

  lemma SuffixMember(ids: seq<string>, id: string, max: nat)
    requires id !in ids
    ensures id !in Suffix(ids, max)
  {
  }

  /** A ticket posts the whole stream, in order. */
  lemma {:induction false} NumberedPosted(t: Ticket, n: nat, sha1: Preimage -> string)
    requires t.devin.seen == []
    ensures After(t, NumberedSteps(n), sha1).posted == NumberedIds(n)
  {
    if n == 0 {
      assert NumberedSteps(0) == [];
    } else {
      var steps := NumberedSteps(n - 1);
      NumberedPosted(t, n - 1, sha1);
      NumberedNew(n - 1);
      SuffixMember(NumberedIds(n - 1), NumberedId(n - 1), 500);
      NumberedBrings(n - 1, sha1);
      PostsExactly(t, steps, Numbered(n - 1), sha1);
      NumberedNext(After(t, steps, sha1), n - 1, sha1);
      assert NumberedSteps(n) == steps + [Inbound(Numbered(n - 1), 0)];
      AfterPush(t, steps, Inbound(Numbered(n - 1), 0), sha1);
    }
  }

  lemma FirstGone(n: nat)
    ensures NumberedId(0) !in Suffix(NumberedIds(n + 1), n)
  {
    var kept := Suffix(NumberedIds(n + 1), n);
    forall i: nat | i < |kept|
      ensures kept[i] != NumberedId(0)
    {
      assert kept[i] == NumberedId(i + 1);
      NumberedDistinct(i + 1, 0);
    }
  }

  /** After 501 messages the first one is forgotten, and its redelivery is posted again; after 500 it is not. */
  lemma RedeliveredAfterLimit(t: Ticket, n: nat, sha1: Preimage -> string)
    requires t.devin.seen == [] && n == 500
    ensures !Unseen(After(t, NumberedSteps(n), sha1).ticket, Numbered(0), sha1)
    ensures Unseen(After(t, NumberedSteps(n + 1), sha1).ticket, Numbered(0), sha1)
  {
    NumberedBrings(0, sha1);
    NumberedPosted(t, n, sha1);
    PostsExactly(t, NumberedSteps(n), Numbered(0), sha1);
    assert NumberedIds(n)[0] == NumberedId(0);
    NumberedPosted(t, n + 1, sha1);
    PostsExactly(t, NumberedSteps(n + 1), Numbered(0), sha1);
    FirstGone(n);
  }
}

/** Resumable event delivery: pages cut by count and by bytes, sent frame by frame behind a cursor. */
module Streaming {
  import opened Wrappers

  const PageSize: nat := 16
  const MaxBytes: nat := 4 * 1024 * 1024

  /** A durable event with its rendering, absent when rendering fails. */
  datatype Event = Event(position: int, id: string, frame: Option<seq<bv8>>)

  datatype Cursor = Start | At(position: int, id: string)

  datatype Frame = Frame(cursor: Cursor, bytes: seq<bv8>)

  datatype Page = Page(frames: seq<Frame>, more: bool)

  function CursorOf(e: Event): Cursor { At(e.position, e.id) }

  function FrameOf(e: Event): Frame
    requires e.frame.Some?
  {
    Frame(CursorOf(e), e.frame.value)
  }

  function Bytes(events: seq<Event>): nat {
    if events == [] then 0
    else
      var last := events[|events| - 1];
      Bytes(events[..|events| - 1]) + (if last.frame.Some? then |last.frame.value| else 0)
  }

  /** Why an event cannot follow the ones before it on a page that starts after `cursor`. */
  predicate Faulty(events: seq<Event>, cursor: Cursor, i: nat)
    requires i < |events|
  {
    || events[i].position <= (if i == 0 then 0 else events[i - 1].position)
    || CursorOf(events[i]) == (if i == 0 then cursor else CursorOf(events[i - 1]))
    || events[i].frame.None?
    || |events[i].frame.value| > MaxBytes
  }

  predicate Sound(events: seq<Event>, cursor: Cursor, n: nat)
    requires n <= |events|
  {
    forall i :: 0 <= i < n ==> !Faulty(events, cursor, i)
  }

  /** The frames of a page are those of the first events, in order. */
  predicate FramesOf(frames: seq<Frame>, events: seq<Event>) {
    && |frames| <= |events|
    && forall i :: 0 <= i < |frames| ==> events[i].frame.Some? && frames[i] == FrameOf(events[i])
  }

  /** The page is the longest sound prefix that fits, and says when it left something behind. */
  predicate IsPage(page: Page, events: seq<Event>, cursor: Cursor) {
    var n := |page.frames|;
    && FramesOf(page.frames, events)
    && |events| <= PageSize
    && Sound(events, cursor, n)
    && Bytes(events[..n]) <= MaxBytes
    && (n < |events| ==> n > 0 && !Faulty(events, cursor, n) && Bytes(events[..n + 1]) > MaxBytes)
    && (page.more <==> n < |events| || |events| == PageSize)
  }

  /** Encoding fails exactly on too long an answer, or at a faulty event that the bytes so far leave room for. */
  predicate Unencodable(events: seq<Event>, cursor: Cursor) {
    || |events| > PageSize
    || exists i :: 0 <= i < |events| && Faulty(events, cursor, i) && Sound(events, cursor, i) && Bytes(events[..i]) <= MaxBytes
  }

  method EncodePage(events: seq<Event>, cursor: Cursor) returns (r: Option<Page>)
    ensures r.None? <==> Unencodable(events, cursor)
    ensures r.Some? ==> IsPage(r.value, events, cursor)
  {
    hide Bytes, Unencodable;
    if |events| > PageSize {
      TooLong(events, cursor);
      return None;
    }
    var more := |events| == PageSize;
    var frames: seq<Frame> := [];
    var bytes := 0;
    var previous := cursor;
    var position := 0;
    var i := 0;
    BytesOfNone(events);
    while i < |events|
      invariant i == |frames| <= |events| <= PageSize && FramesOf(frames, events)
      invariant Sound(events, cursor, i) && bytes == Bytes(events[..i]) <= MaxBytes
      invariant position == (if i == 0 then 0 else events[i - 1].position)
      invariant previous == (if i == 0 then cursor else CursorOf(events[i - 1]))
      invariant more <==> |events| == PageSize
    {
      var event := events[i];
      var next := CursorOf(event);
      if event.position <= position || next == previous {
        FaultIsUnencodable(events, cursor, i);
        return None;
      }
      if event.frame.None? || |event.frame.value| > MaxBytes {
        FaultIsUnencodable(events, cursor, i);
        return None;
      }
      var frame := event.frame.value;
      BytesNext(events, i);
      if bytes + |frame| > MaxBytes && frames != [] {
        more := true;
        FullIsEncodable(events, cursor, i);
        return Some(Page(frames, more));
      }
      bytes := bytes + |frame|;
      position := event.position;
      previous := next;
      frames := frames + [Frame(next, frame)];
      i := i + 1;
    }
    AllIsEncodable(events, cursor);
    r := Some(Page(frames, more));
  }

  lemma TooLong(events: seq<Event>, cursor: Cursor)
    requires |events| > PageSize
    ensures Unencodable(events, cursor)
  {
  }

  lemma FaultIsUnencodable(events: seq<Event>, cursor: Cursor, i: nat)
    requires i < |events| && Faulty(events, cursor, i) && Sound(events, cursor, i) && Bytes(events[..i]) <= MaxBytes
    ensures Unencodable(events, cursor)
  {
  }

  lemma AllIsEncodable(events: seq<Event>, cursor: Cursor)
    requires |events| <= PageSize && Sound(events, cursor, |events|)
    ensures !Unencodable(events, cursor)
  {
  }

  lemma BytesOfNone(events: seq<Event>)
    ensures Bytes(events[..0]) == 0
  {
  }

  lemma BytesNext(events: seq<Event>, i: nat)
    requires i < |events| && events[i].frame.Some?
    ensures Bytes(events[..i + 1]) == Bytes(events[..i]) + |events[i].frame.value|
  {
    assert events[..i + 1][..i] == events[..i];
  }

  lemma {:induction false} BytesGrow(events: seq<Event>, i: nat, j: nat)
    requires i <= j <= |events|
    ensures Bytes(events[..i]) <= Bytes(events[..j])
    decreases j
  {
    if i < j {
      assert events[..j][..j - 1] == events[..j - 1];
      BytesGrow(events, i, j - 1);
    }
  }

  lemma FullIsEncodable(events: seq<Event>, cursor: Cursor, n: nat)
    requires n < |events| <= PageSize && Sound(events, cursor, n + 1) && Bytes(events[..n + 1]) > MaxBytes
    ensures !Unencodable(events, cursor)
  {
    forall i | 0 <= i < |events| && Faulty(events, cursor, i) && Sound(events, cursor, i)
      ensures Bytes(events[..i]) > MaxBytes
    {
      BytesGrow(events, n + 1, i);
    }
  }

  /** A page never goes back: positions are positive and grow, no cursor repeats the one before, no frame is too large. */
  lemma {:induction false} PageIsOrdered(page: Page, events: seq<Event>, cursor: Cursor, i: nat, j: nat)
    requires IsPage(page, events, cursor) && i <= j < |page.frames|
    ensures 0 < events[i].position && (i < j ==> events[i].position < events[j].position)
    ensures |page.frames[j].bytes| <= 4 * 1024 * 1024
    ensures page.frames[j].cursor != if j == 0 then cursor else page.frames[j - 1].cursor
    decreases j
  {
    assert !Faulty(events, cursor, j);
    if j > 0 {
      PageIsOrdered(page, events, cursor, if i < j then i else j - 1, j - 1);
    }
  }

  // The durable sequence and the poll.

  /** Positions are positive and grow. */
  ghost predicate Durable(log: seq<Event>) {
    && (forall i :: 0 <= i < |log| ==> log[i].position > 0)
    && (forall i, j :: 0 <= i < j < |log| ==> log[i].position < log[j].position)
  }

  function PositionOf(c: Cursor): int { if c.Start? then 0 else c.position }

  /** How many events a cursor has passed. */
  function Passed(log: seq<Event>, cursor: Cursor): (n: nat)
    ensures n <= |log|
    ensures forall i :: 0 <= i < n ==> log[i].position <= PositionOf(cursor)
    ensures n < |log| ==> log[n].position > PositionOf(cursor)
  {
    if log == [] || log[0].position > PositionOf(cursor) then 0 else 1 + Passed(log[1..], cursor)
  }

  /** The next events after the cursor, in order, of those visible when polling. */
  function Poll(log: seq<Event>, cursor: Cursor, visible: nat): (events: seq<Event>)
    ensures |events| <= PageSize
  {
    var from := Passed(log, cursor);
    var upto := if visible < |log| then visible else |log|;
    if upto <= from then [] else log[from..if upto < from + PageSize then upto else from + PageSize]
  }

  lemma PassedIs(log: seq<Event>, cursor: Cursor, n: nat)
    requires Durable(log) && n <= |log|
    requires n > 0 ==> log[n - 1].position <= PositionOf(cursor)
    requires n < |log| ==> log[n].position > PositionOf(cursor)
    ensures Passed(log, cursor) == n
  {
    hide Passed;
  }

  /** On an ordered log only the event itself can be at fault: it does not render or is too large. */
  predicate Undeliverable(e: Event) { e.frame.None? || |e.frame.value| > MaxBytes }

  lemma FaultyIsUndeliverable(log: seq<Event>, cursor: Cursor, visible: nat, i: nat)
    requires Durable(log) && i < |Poll(log, cursor, visible)| && 0 <= PositionOf(cursor)
    ensures Poll(log, cursor, visible)[i] == log[Passed(log, cursor) + i]
    ensures Faulty(Poll(log, cursor, visible), cursor, i) <==> Undeliverable(log[Passed(log, cursor) + i])
  {
    hide Passed;
    var from := Passed(log, cursor);
    var events := Poll(log, cursor, visible);
    assert events[i] == log[from + i];
    assert i > 0 ==> events[i - 1] == log[from + i - 1];
  }

  // The delivery loop, over everything that can happen to it.

  datatype Answer = Stopped | Failed | Visible(count: nat)

  /** One turn: how many frames get through, whether the wait is cut short, and what the poll answers. */
  datatype Turn = Turn(sends: nat, cancelled: bool, answer: Answer)

  datatype End = Running | Closed | Broken

  /** The frames of a stretch of the log, in order, without a gap and without a repeat. */
  predicate Stretch(frames: seq<Frame>, log: seq<Event>, from: nat) {
    && from + |frames| <= |log|
    && forall k :: from <= k < from + |frames| ==> log[k].frame.Some? && frames[k - from] == FrameOf(log[k])
  }

  /** Some event that the next page would have had to hold cannot be delivered. */
  ghost predicate Blocked(log: seq<Event>, from: nat) {
    exists i :: from <= i < |log| && i < from + PageSize && Undeliverable(log[i])
  }

  ghost predicate Clear(log: seq<Event>, from: nat) {
    forall i :: from <= i < |log| ==> !Undeliverable(log[i])
  }

  lemma ClearIsNotBlocked(log: seq<Event>, from: nat)
    ensures Clear(log, from) ==> forall n: nat :: from <= n ==> !Blocked(log, n)
  {
  }

  lemma HealthyTurn(log: seq<Event>, visible: nat, turns: seq<Turn>, i: nat)
    requires i < |turns|
    ensures Healthy(log, visible, turns) ==>
      && turns[i].sends >= PageSize && !turns[i].cancelled
      && turns[i].answer.Visible? && turns[i].answer.count >= |log| && Seen(visible, turns, i) >= |log|
  {
  }

  /** The connection stays open and every poll sees the whole log. */
  ghost predicate Healthy(log: seq<Event>, visible: nat, turns: seq<Turn>) {
    && visible >= |log|
    && forall i :: 0 <= i < |turns| ==>
         turns[i].sends >= PageSize && !turns[i].cancelled && turns[i].answer.Visible? && turns[i].answer.count >= |log|
  }

  function Least(a: int, b: int): int { if a < b then a else b }

  /** The next page: the frames after the cursor, none of them only when nothing more is visible. */
  method NextPage(log: seq<Event>, cursor: Cursor, visible: nat) returns (r: Option<Page>)
    requires Durable(log) && 0 <= PositionOf(cursor)
    ensures r.None? <==> Unencodable(Poll(log, cursor, visible), cursor)
    ensures r.Some? ==> IsPage(r.value, Poll(log, cursor, visible), cursor)
    ensures r.None? ==> Blocked(log, Passed(log, cursor))
    ensures r.Some? ==>
      && Stretch(r.value.frames, log, Passed(log, cursor)) && |r.value.frames| <= PageSize
      && (r.value.frames == [] <==> Least(visible, |log|) <= Passed(log, cursor))
      && (Passed(log, cursor) + |r.value.frames| < Least(visible, |log|) ==> r.value.more)
  {
    hide Passed, Unencodable, Faulty, Sound, Bytes;
    var events := Poll(log, cursor, visible);
    r := EncodePage(events, cursor);
    ghost var from := Passed(log, cursor);
    if r.None? {
      UnencodableIsBlocked(log, cursor, visible);
    } else {
      assert forall k :: from <= k < from + |events| ==> events[k - from] == log[k];
    }
  }

  lemma UnencodableIsBlocked(log: seq<Event>, cursor: Cursor, visible: nat)
    requires Durable(log) && 0 <= PositionOf(cursor) && Unencodable(Poll(log, cursor, visible), cursor)
    ensures Blocked(log, Passed(log, cursor))
  {
    hide Passed, Faulty, Sound, Bytes;
    var events := Poll(log, cursor, visible);
    var i :| 0 <= i < |events| && Faulty(events, cursor, i);
    FaultyIsUndeliverable(log, cursor, visible, i);
    assert Undeliverable(log[Passed(log, cursor) + i]);
  }

  /** Sending the frame at the head of what is left moves the cursor past exactly that event. */
  lemma CursorAdvances(log: seq<Event>, n: nat)
    requires Durable(log) && n < |log|
    ensures Passed(log, CursorOf(log[n])) == n + 1
  {
    PassedIs(log, CursorOf(log[n]), n + 1);
  }

  method SendFrames(log: seq<Event>, frames: seq<Frame>, start: Cursor, sends: nat)
      returns (count: nat, cursor: Cursor)
    requires Durable(log) && 0 <= PositionOf(start) && Stretch(frames, log, Passed(log, start))
    ensures count == Least(|frames|, sends)
    ensures cursor == if count == 0 then start else frames[count - 1].cursor
    ensures 0 <= PositionOf(cursor) && Passed(log, cursor) == Passed(log, start) + count
  {
    hide Passed;
    count, cursor := 0, start;
    while count < |frames| && count < sends
      invariant count <= |frames| && count <= sends
      invariant cursor == if count == 0 then start else frames[count - 1].cursor
      invariant 0 <= PositionOf(cursor) && Passed(log, cursor) == Passed(log, start) + count
    {
      cursor := frames[count].cursor;
      CursorAdvances(log, Passed(log, start) + count);
      count := count + 1;
    }
  }

  lemma StretchExtends(log: seq<Event>, from: nat, sent: seq<Frame>, frames: seq<Frame>, count: nat)
    requires Stretch(sent, log, from) && Stretch(frames, log, from + |sent|) && count <= |frames|
    ensures Stretch(sent + frames[..count], log, from)
  {
    var all := sent + frames[..count];
    forall k | from <= k < from + |all| ensures log[k].frame.Some? && all[k - from] == FrameOf(log[k]) {
      if k >= from + |sent| {
        assert all[k - from] == frames[k - (from + |sent|)];
      }
    }
  }

  lemma StretchRest(log: seq<Event>, from: nat, frames: seq<Frame>, count: nat)
    requires Stretch(frames, log, from) && count <= |frames|
    ensures Stretch(frames[count..], log, from + count)
  {
  }

  lemma EmptyStretch(log: seq<Event>, from: nat)
    requires from <= |log|
    ensures Stretch([], log, from)
  {
  }

  /** What the latest poll could see. */
  function Seen(visible: nat, turns: seq<Turn>, i: nat): nat
    requires i <= |turns|
  {
    if i == 0 then visible else if turns[i - 1].answer.Visible? then turns[i - 1].answer.count else 0
  }

  /** The loop's variables: what has been sent, what the page still holds, and the cursor. */
  datatype Progress = Progress(sent: seq<Frame>, pending: seq<Frame>, more: bool, cursor: Cursor)

  ghost predicate Contiguous(log: seq<Event>, start: Cursor, p: Progress) {
    && Stretch(p.sent, log, Passed(log, start))
    && Stretch(p.pending, log, Passed(log, start) + |p.sent|) && |p.pending| <= PageSize
    && p.cursor == (if p.sent == [] then start else p.sent[|p.sent| - 1].cursor)
    && 0 <= PositionOf(p.cursor) && Passed(log, p.cursor) == Passed(log, start) + |p.sent|
  }

  /** Sending what a page holds keeps the stream contiguous. */
  method SendPage(log: seq<Event>, start: Cursor, p: Progress, sends: nat) returns (q: Progress)
    requires Durable(log) && 0 <= PositionOf(start) && Contiguous(log, start, p)
    ensures Contiguous(log, start, q) && q.more == p.more
    ensures |q.sent| == |p.sent| + Least(|p.pending|, sends)
    ensures q.pending == [] <==> sends >= |p.pending|
  {
    hide Stretch, Passed, Durable;
    var count, cursor := SendFrames(log, p.pending, p.cursor, sends);
    StretchExtends(log, Passed(log, start), p.sent, p.pending, count);
    StretchRest(log, Passed(log, start) + |p.sent|, p.pending, count);
    q := Progress(p.sent + p.pending[..count], p.pending[count..], p.more, cursor);
  }

  /** One turn of the loop. */
  method TakeTurn(log: seq<Event>, start: Cursor, p: Progress, turn: Turn) returns (q: Progress, end: End)
    requires Durable(log) && 0 <= PositionOf(start) && Contiguous(log, start, p)
    ensures Contiguous(log, start, q)
    ensures end == Running ==>
      && turn.answer.Visible? && |q.sent| == |p.sent| + |p.pending|
      && (q.pending == [] <==> Least(turn.answer.count, |log|) <= Passed(log, q.cursor))
    ensures end == Closed <==> turn.sends < |p.pending| || (!p.more && turn.cancelled) || turn.answer.Stopped?
    ensures end == Running ==>
      IsPage(Page(q.pending, q.more), Poll(log, q.cursor, turn.answer.count), q.cursor)
    ensures end != Closed ==>
      (end == Broken <==> turn.answer.Failed? || Unencodable(Poll(log, q.cursor, turn.answer.count), q.cursor))
    ensures end == Broken ==> turn.answer.Failed? || Blocked(log, Passed(log, q.cursor))
  {
    hide Stretch, Passed, Durable, Blocked, Unencodable, IsPage, Poll;
    q := SendPage(log, start, p, turn.sends);
    if q.pending != [] {
      return q, Closed;
    }
    if !q.more && turn.cancelled {
      return q, Closed;
    }
    if turn.answer.Stopped? {
      return q, Closed;
    }
    if turn.answer.Failed? {
      return q, Broken;
    }
    var page := NextPage(log, q.cursor, turn.answer.count);
    if page.None? {
      return q, Broken;
    }
    q := q.(pending := page.value.frames, more := page.value.more);
    end := Running;
  }

  /**
   * Opening a stream and any number of turns of its loop. What has been sent is a contiguous stretch
   * of the log from the start cursor, and the cursor is where a later stream resumes. An error ends
   * the stream only when a poll failed or an event ahead cannot be delivered. An idle stream has sent
   * all that its last poll saw, and on a healthy connection every turn advances until all is sent.
   */
  method Deliver(log: seq<Event>, start: Cursor, visible: nat, turns: seq<Turn>) returns (p: Progress, end: End)
    requires Durable(log) && 0 <= PositionOf(start)
    ensures Contiguous(log, start, p)
    ensures end == Broken ==>
      || (exists i :: 0 <= i < |turns| && turns[i].answer == Failed)
      || Blocked(log, Passed(log, p.cursor))
    ensures end == Closed ==>
      exists i :: 0 <= i < |turns| && (turns[i].sends < PageSize || turns[i].cancelled || turns[i].answer == Stopped)
    ensures end == Running && p.pending == [] ==> Least(Seen(visible, turns, |turns|), |log|) <= Passed(log, p.cursor)
    ensures Healthy(log, visible, turns) && Clear(log, Passed(log, start)) ==>
      end == Running && |p.sent| >= Least(|turns|, |log| - Passed(log, start))
  {
    hide Stretch, Passed, Durable, Blocked, Clear, Healthy, Unencodable, IsPage, Poll;
    ghost var from := Passed(log, start);
    EmptyStretch(log, from);
    ClearIsNotBlocked(log, from);
    p := Progress([], [], false, start);
    var page := NextPage(log, start, visible);
    if page.None? {
      return p, Broken;
    }
    p := p.(pending := page.value.frames, more := page.value.more);
    end := Running;
    var i := 0;
    while i < |turns|
      invariant i <= |turns| && end == Running && Contiguous(log, start, p)
      invariant p.pending == [] <==> Least(Seen(visible, turns, i), |log|) <= from + |p.sent|
      invariant Healthy(log, visible, turns) && Clear(log, from) ==> |p.sent| >= Least(i, |log| - from)
    {
      HealthyTurn(log, visible, turns, i);
      p, end := TakeTurn(log, start, p, turns[i]);
      if end != Running {
        return;
      }
      i := i + 1;
    }
  }
}

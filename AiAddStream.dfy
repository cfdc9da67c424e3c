/** The streaming route: the same pipeline, reported as server-sent events
    while it runs. Progress events count up towards a fixed total of 64, one
    per question in between, and the stream ends with one error or one
    success event. */
module AiAddStream {
  import opened Wrappers
  import opened Text
  import opened Questions
  import opened Scoring
  import opened People
  import opened Pipeline
  import opened AiAdd

  /** The `data:` payloads the route sends. */
  datatype Event =
    | Progress(current: nat, total: nat, message: string)
    | Failure(error: string)
    | Success(name: string, x: real, y: real, wikipediaUrl: Option<string>)

  /** The total every progress event announces, whatever the number of
      questions. */
  const Total: nat := 64

  const Checking := Progress(0, Total, "Checking if person exists...")
  const Verifying := Progress(1, Total, "Verifying notability...")
  const Fetching := Progress(63, Total, "Fetching Wikipedia URL...")
  const Saving := Progress(64, Total, "Saving to database...")

  /** The event before question `i` (counting from 0) of `n`. */
  function QuestionEvent(i: nat, n: nat): Event {
    Progress(i + 2, Total, "Processing question " + NatToString(i + 1) + " of " + NatToString(n))
  }

  /** The events before the first `k` of `n` questions, in order: question
      `i` is announced at position `i`. */
  function QuestionsUpTo(k: nat, n: nat): (r: seq<Event>)
    ensures |r| == k
    ensures AnnouncesInOrder(r, n)
  {
    if k == 0 then [] else QuestionsUpTo(k - 1, n) + [QuestionEvent(k - 1, n)]
  }

  /** Each event of `evs` announces the question at its own position, of `n`. */
  predicate AnnouncesInOrder(evs: seq<Event>, n: nat) {
    forall i :: 0 <= i < |evs| ==> evs[i] == QuestionEvent(i, n)
  }

  /** The events for all the questions. */
  function QuestionProgress(n: nat): seq<Event> {
    QuestionsUpTo(n, n)
  }

  /** The controller of the response stream: what has been enqueued, and
      whether it has been closed. */
  class EventStream {
    var events: seq<Event>
    var closed: bool

    constructor ()
      ensures events == [] && !closed
    {
      events := [];
      closed := false;
    }

    /** `controller.enqueue`: a closed stream refuses it with a TypeError,
        so the route may only call it while the stream is open. */
    method Enqueue(e: Event)
      requires !closed
      modifies this
      ensures events == old(events) + [e] && !closed
    {
      events := events + [e];
    }

    /** `controller.close`: on a stream that is already closed it throws a
        TypeError instead (`threw`) and changes nothing. */
    method Close() returns (threw: bool)
      modifies this
      ensures threw == old(closed)
      ensures closed && events == old(events)
    {
      threw := closed;
      closed := true;
    }
  }

  /** The exits after which the route closes the stream itself before
      returning from the `try` block. */
  predicate ClosesEarly(e: Exit) {
    e.InvalidName? || e.Duplicate? || e.NotNotable?
  }

  /** The whole run of events for an outcome, with `n` questions. */
  function StreamEvents(e: Exit, n: nat): seq<Event> {
    match e
    case BodyUnreadable => [Failure(GenericError)]
    case InvalidName(message) => [Failure(message)]
    case Duplicate => [Checking, Failure(AlreadyExists)]
    case NotabilityThrew => [Checking, Verifying, Failure(GenericError)]
    case NotNotable => [Checking, Verifying, Failure(NotNotableEnough)]
    case UrlThrew => [Checking, Verifying] + QuestionProgress(n) + ScoredTail(e)
    case InsertThrew => [Checking, Verifying] + QuestionProgress(n) + ScoredTail(e)
    case Inserted(_) => [Checking, Verifying] + QuestionProgress(n) + ScoredTail(e)
  }

  /** The events after the questions have been scored. */
  function ScoredTail(e: Exit): seq<Event> {
    match e
    case UrlThrew => [Fetching, Failure(GenericError)]
    case InsertThrew => [Fetching, Saving, Failure(GenericError)]
    case Inserted(r) => [Fetching, Saving, Success(r.name, r.x, r.y, r.wikipediaUrl)]
    case _ => []
  }

  /** The events of a run that got as far as scoring, after what was sent
      before it. */
  lemma ScoredStreamEvents(before: seq<Event>, e: Exit, n: nat)
    requires e.UrlThrew? || e.InsertThrew? || e.Inserted?
    ensures before + [Checking] + [Verifying] + QuestionProgress(n) + ScoredTail(e)
      == before + StreamEvents(e, n)
  {
    var q, t := QuestionProgress(n), ScoredTail(e);
    assert StreamEvents(e, n) == [Checking, Verifying] + q + t;
    assert [Checking] + [Verifying] == [Checking, Verifying];
  }

  /** The events of a run refused at the notability check, after what was
      sent before it. */
  lemma VettingStreamEvents(before: seq<Event>, e: Exit, failure: Event, n: nat)
    requires (e == NotabilityThrew && failure == Failure(GenericError))
      || (e == NotNotable && failure == Failure(NotNotableEnough))
    ensures before + [Checking] + [Verifying] + [failure] == before + StreamEvents(e, n)
  {
  }

  /** The loop over the questions: the progress event for each question,
      then its strike added to x or y; a failed call is skipped. */
  method ScoreWithProgress(stream: EventStream, questions: seq<Question>, answers: seq<Option<string>>)
    returns (x: real, y: real)
    requires |answers| == |questions| && !stream.closed
    modifies stream
    ensures stream.events == old(stream.events) + QuestionProgress(|questions|) && !stream.closed
    ensures Point(x, y) == Totals(questions, answers)
  {
    x, y := 0.0, 0.0;
    var n := |questions|;
    for i := 0 to n
      invariant stream.events == old(stream.events) + QuestionsUpTo(i, n) && !stream.closed
      invariant Point(x, y) == Totals(questions[..i], answers[..i])
    {
      var question := questions[i];
      stream.Enqueue(QuestionEvent(i, n));
      TotalsPrefixStep(questions, answers, i);
      match answers[i] {
        case None =>
          // the call threw: continue with the next question
        case Some(text) =>
          var answerValue := SymbolValue(Trim(text));
          var strike := Strike(answerValue, question.units, question.agree);
          if question.axis == "x" {
            x := x + strike;
          } else {
            y := y + strike;
          }
      }
    }
    assert questions[..n] == questions && answers[..n] == answers;
  }

  /** The part of the body after the notability check: the questions, the
      URL, the insert, each step announced first. */
  method ScoreAndSave(stream: EventStream, store: Store, questions: seq<Question>, answers: seq<Option<string>>,
                      trimmedName: string, urlReply: Option<string>, insertFails: bool,
                      ghost before: seq<Event>, ghost e: Exit)
    requires store.Valid() && |answers| == |questions| && !stream.closed
    requires stream.events == before + [Checking] + [Verifying]
    requires e == Scored(questions, answers, trimmedName, urlReply, insertFails)
    modifies stream, store
    ensures store.Valid()
    ensures !ClosesEarly(e)
    ensures stream.events == before + StreamEvents(e, |questions|)
      && !stream.closed
      && store.rows == RowsAfter(old(store.rows), old(store.nextId), e)
      && store.nextId == old(store.nextId) + (if e.Inserted? then 1 else 0)
  {
    ScoredStreamEvents(before, e, |questions|);
    var x, y := ScoreWithProgress(stream, questions, answers);
    Save(stream, store, trimmedName, x, y, urlReply, insertFails);
  }

  /** The steps after the loop, from the raw totals `sumX` and `sumY`: the
      coordinates are finished, then the URL is asked for. */
  method Save(stream: EventStream, store: Store, trimmedName: string, sumX: real, sumY: real,
              urlReply: Option<string>, insertFails: bool)
    requires store.Valid() && !stream.closed
    modifies stream, store
    ensures store.Valid()
    ensures var e := Saved(trimmedName, Point(sumX, sumY), urlReply, insertFails);
      && stream.events == old(stream.events) + ScoredTail(e)
      && !stream.closed
      && store.rows == RowsAfter(old(store.rows), old(store.nextId), e)
      && store.nextId == old(store.nextId) + (if e.Inserted? then 1 else 0)
  {
    ghost var before := stream.events;
    stream.Enqueue(Fetching);
    var x, y := Clamp(sumX), Clamp(sumY);
    x, y := RoundHundredths(x), RoundHundredths(y);
    FetchAndInsert(stream, store, trimmedName, x, y, urlReply, insertFails, before);
  }

  /** "Fetching Wikipedia URL..." has been sent after the events `before`
      and the coordinates are finished: the URL call, then the insert. */
  method FetchAndInsert(stream: EventStream, store: Store, trimmedName: string, x: real, y: real,
                        urlReply: Option<string>, insertFails: bool, ghost before: seq<Event>)
    requires store.Valid() && !stream.closed
    requires stream.events == before + [Fetching]
    modifies stream, store
    ensures store.Valid()
    ensures var e := Filed(trimmedName, x, y, urlReply, insertFails);
      && stream.events == before + ScoredTail(e)
      && !stream.closed
      && store.rows == RowsAfter(old(store.rows), old(store.nextId), e)
      && store.nextId == old(store.nextId) + (if e.Inserted? then 1 else 0)
  {
    if urlReply.None? {
      stream.Enqueue(Failure(GenericError));
      return;
    }
    var wikipediaUrl := Trim(urlReply.value);
    var isValidUrl := StartsWith(wikipediaUrl, WikipediaPrefix);
    var url := if isValidUrl then Some(wikipediaUrl) else None;
    assert url == AcceptUrl(urlReply.value);
    AcceptedUrlStored(urlReply.value);
    ghost var record := Record(trimmedName, x, y, url);
    ghost var e := if insertFails then InsertThrew else Inserted(record);
    assert Filed(trimmedName, x, y, urlReply, insertFails) == e;
    Insert(stream, store, trimmedName, x, y, url, insertFails);
    assert stream.events == before + ScoredTail(e);
  }

  /** "Saving to database...", then `addPerson` with the finished
      coordinates and the accepted URL, and the success event with the row
      it returns. */
  method Insert(stream: EventStream, store: Store, trimmedName: string, x: real, y: real,
                url: Option<string>, insertFails: bool)
    requires store.Valid() && !stream.closed
    modifies stream, store
    ensures store.Valid() && !stream.closed
    ensures var p := Person(old(store.nextId), trimmedName, x, y, StoredUrl(url));
      && stream.events == old(stream.events) + [Saving]
        + [if insertFails then Failure(GenericError) else Success(p.name, p.x, p.y, p.wikipediaUrl)]
      && store.rows == old(store.rows) + (if insertFails then [] else [p])
      && store.nextId == old(store.nextId) + (if insertFails then 0 else 1)
  {
    stream.Enqueue(Saving);
    if insertFails {
      stream.Enqueue(Failure(GenericError));
      return;
    }
    var newPerson := store.AddPerson(trimmedName, x, y, url);
    stream.Enqueue(Success(newPerson.name, newPerson.x, newPerson.y, newPerson.wikipediaUrl));
  }

  /** The body of `start` inside its `try`/`catch`, without the `finally`.
      `closeOnEarlyExit` says whether the early exits close the controller
      themselves, as the route does. */
  method Run(stream: EventStream, store: Store, questions: seq<Question>, request: Request,
             notability: Option<string>, answers: seq<Option<string>>,
             urlReply: Option<string>, insertFails: bool, closeOnEarlyExit: bool)
    requires store.Valid() && |answers| == |questions| && !stream.closed
    modifies stream, store
    ensures store.Valid()
    ensures var e := Outcome(old(store.rows), questions, request, notability, answers, urlReply, insertFails);
      && stream.events == old(stream.events) + StreamEvents(e, |questions|)
      && stream.closed == (closeOnEarlyExit && ClosesEarly(e))
      && store.rows == RowsAfter(old(store.rows), old(store.nextId), e)
      && store.nextId == old(store.nextId) + (if e.Inserted? then 1 else 0)
  {
    ghost var e := Outcome(store.rows, questions, request, notability, answers, urlReply, insertFails);
    if request.Unreadable? {
      stream.Enqueue(Failure(GenericError));
      return;
    }
    var name := request.name;
    if name.None? || name.value == "" {
      stream.Enqueue(Failure(NameRequired));
      assert e == InvalidName(NameRequired);
      if closeOnEarlyExit {
        var _ := stream.Close();
      }
      return;
    }
    var trimmedName := Trim(name.value);
    if Utf16Length(trimmedName) > MaxNameLength {
      stream.Enqueue(Failure(NameTooLong));
      assert e == InvalidName(NameTooLong);
      if closeOnEarlyExit {
        var _ := stream.Close();
      }
      return;
    }
    assert ValidateName(name) == Ok(trimmedName);
    assert e == Checked(store.rows, questions, trimmedName, notability, answers, urlReply, insertFails);
    CheckAndScore(stream, store, questions, trimmedName, notability, answers, urlReply, insertFails,
                  closeOnEarlyExit);
  }

  /** The body after the name has been validated: the duplicate check, then
      the rest. */
  method CheckAndScore(stream: EventStream, store: Store, questions: seq<Question>, trimmedName: string,
                       notability: Option<string>, answers: seq<Option<string>>,
                       urlReply: Option<string>, insertFails: bool, closeOnEarlyExit: bool)
    requires store.Valid() && |answers| == |questions| && !stream.closed
    modifies stream, store
    ensures store.Valid()
    ensures var e := Checked(old(store.rows), questions, trimmedName, notability, answers, urlReply, insertFails);
      && stream.events == old(stream.events) + StreamEvents(e, |questions|)
      && stream.closed == (closeOnEarlyExit && ClosesEarly(e))
      && store.rows == RowsAfter(old(store.rows), old(store.nextId), e)
      && store.nextId == old(store.nextId) + (if e.Inserted? then 1 else 0)
  {
    ghost var start := stream.events;
    stream.Enqueue(Checking);
    if store.PersonExists(trimmedName) {
      stream.Enqueue(Failure(AlreadyExists));
      if closeOnEarlyExit {
        var _ := stream.Close();
      }
      return;
    }
    VerifyAndScore(stream, store, questions, trimmedName, notability, answers, urlReply, insertFails,
                   closeOnEarlyExit, start);
  }

  /** The body for a name not in the table, once "Checking" has been sent
      after the events `before`: the notability check, then the rest. */
  method VerifyAndScore(stream: EventStream, store: Store, questions: seq<Question>, trimmedName: string,
                        notability: Option<string>, answers: seq<Option<string>>,
                        urlReply: Option<string>, insertFails: bool, closeOnEarlyExit: bool,
                        ghost before: seq<Event>)
    requires store.Valid() && |answers| == |questions| && !stream.closed
    requires stream.events == before + [Checking]
    modifies stream, store
    ensures store.Valid()
    ensures var e := Vetted(questions, trimmedName, notability, answers, urlReply, insertFails);
      && stream.events == before + StreamEvents(e, |questions|)
      && stream.closed == (closeOnEarlyExit && ClosesEarly(e))
      && store.rows == RowsAfter(old(store.rows), old(store.nextId), e)
      && store.nextId == old(store.nextId) + (if e.Inserted? then 1 else 0)
  {
    ghost var e := Vetted(questions, trimmedName, notability, answers, urlReply, insertFails);
    stream.Enqueue(Verifying);
    if notability.None? {
      stream.Enqueue(Failure(GenericError));
      VettingStreamEvents(before, e, Failure(GenericError), |questions|);
      return;
    }
    if !IsNotable(notability.value) {
      stream.Enqueue(Failure(NotNotableEnough));
      VettingStreamEvents(before, e, Failure(NotNotableEnough), |questions|);
      if closeOnEarlyExit {
        var _ := stream.Close();
      }
      return;
    }
    assert e == Scored(questions, answers, trimmedName, urlReply, insertFails);
    ScoreAndSave(stream, store, questions, answers, trimmedName, urlReply, insertFails, before, e);
  }

  /** The route's `start(controller)` as written: the body, then the
      `finally` block's `close()`. After an early exit that closed the stream
      already, that second `close()` throws, and `start` rejects. */
  method Start(store: Store, questions: seq<Question>, request: Request,
               notability: Option<string>, answers: seq<Option<string>>,
               urlReply: Option<string>, insertFails: bool)
    returns (stream: EventStream, rejected: bool)
    requires store.Valid() && |answers| == |questions|
    modifies store
    ensures store.Valid()
    ensures var e := Outcome(old(store.rows), questions, request, notability, answers, urlReply, insertFails);
      && stream.events == StreamEvents(e, |questions|) && stream.closed
      && rejected == ClosesEarly(e)
      && store.rows == RowsAfter(old(store.rows), old(store.nextId), e)
      && store.nextId == old(store.nextId) + (if e.Inserted? then 1 else 0)
  {
    stream := new EventStream();
    Run(stream, store, questions, request, notability, answers, urlReply, insertFails, true);
    rejected := stream.Close();
  }

  /** `start` with the early exits leaving the close to the `finally` block:
      the same events, and the stream is closed exactly once on every path. */
  method StartClosingOnce(store: Store, questions: seq<Question>, request: Request,
                          notability: Option<string>, answers: seq<Option<string>>,
                          urlReply: Option<string>, insertFails: bool)
    returns (stream: EventStream, rejected: bool)
    requires store.Valid() && |answers| == |questions|
    modifies store
    ensures store.Valid()
    ensures var e := Outcome(old(store.rows), questions, request, notability, answers, urlReply, insertFails);
      && stream.events == StreamEvents(e, |questions|) && stream.closed
      && !rejected
      && store.rows == RowsAfter(old(store.rows), old(store.nextId), e)
      && store.nextId == old(store.nextId) + (if e.Inserted? then 1 else 0)
  {
    stream := new EventStream();
    Run(stream, store, questions, request, notability, answers, urlReply, insertFails, false);
    rejected := stream.Close();
  }

  /** The input that shows the double close: a request whose name is the
      empty string closes early, so the route as written rejects. */
  lemma EmptyNameClosesEarly(rows: seq<Person>, questions: seq<Question>,
                             notability: Option<string>, answers: seq<Option<string>>,
                             urlReply: Option<string>, insertFails: bool)
    requires |answers| == |questions|
    ensures var e := Outcome(rows, questions, Body(Some("")), notability, answers, urlReply, insertFails);
      e == InvalidName(NameRequired) && ClosesEarly(e)
  {
  }

  // ---------------------------------------------------------------------
  // properties of the event runs

  predicate IsTerminal(ev: Event) {
    ev.Failure? || ev.Success?
  }

  /** Every run ends with exactly one terminal event, after progress events
      only; it is a success exactly when the person was inserted. */
  lemma OneTerminalEventLast(e: Exit, n: nat)
    ensures var evs := StreamEvents(e, n);
      && |evs| >= 1 && IsTerminal(evs[|evs| - 1])
      && (forall i :: 0 <= i < |evs| - 1 ==> evs[i].Progress?)
      && (evs[|evs| - 1].Success? <==> e.Inserted?)
  {
    var evs := StreamEvents(e, n);
    var qs := QuestionProgress(n);
    if e.UrlThrew? || e.InsertThrew? || e.Inserted? {
      var head: seq<Event> := [Checking, Verifying];
      var tail := ScoredTail(e);
      assert evs == head + qs + tail;
      forall i | 0 <= i < |evs| - 1 ensures evs[i].Progress? {
        if i < 2 {
          assert evs[i] == head[i];
        } else if i < 2 + n {
          assert evs[i] == qs[i - 2];
        } else {
          assert evs[i] == tail[i - 2 - n];
        }
      }
      assert evs[|evs| - 1] == tail[|tail| - 1];
    }
  }

  /** The last event says what the buffered route answers: the same error
      message, or the same person. */
  lemma SameVerdictAsBuffered(e: Exit, n: nat)
    ensures var last := StreamEvents(e, n)[|StreamEvents(e, n)| - 1];
      match BufferedResponse(e).body
      case ErrorBody(message) => last == Failure(message)
      case PersonBody(name, x, y, url) => last == Success(name, x, y, url)
  {
    OneTerminalEventLast(e, n);
  }

  /** The `current` fields of the progress events, in order. */
  function Currents(evs: seq<Event>): (r: seq<nat>)
    ensures |r| <= |evs|
  {
    if |evs| == 0 then []
    else
      var front := Currents(evs[..|evs| - 1]);
      var last := evs[|evs| - 1];
      if last.Progress? then front + [last.current] else front
  }

  lemma {:induction false} CurrentsAppend(a: seq<Event>, b: seq<Event>)
    ensures Currents(a + b) == Currents(a) + Currents(b)
    decreases |b|
  {
    if |b| > 0 {
      var n := |b| - 1;
      assert (a + b)[..|a + b| - 1] == a + b[..n];
      CurrentsAppend(a, b[..n]);
    } else {
      assert a + b == a;
    }
  }

  lemma CurrentsSingle(ev: Event)
    ensures Currents([ev]) == if ev.Progress? then [ev.current] else []
  {
    assert [ev][..0] == [];
  }

  /** The counters 2, 3, ..., k + 1. */
  function Counting(k: nat): (r: seq<nat>)
    ensures |r| == k && forall i :: 0 <= i < k ==> r[i] == i + 2
  {
    if k == 0 then [] else Counting(k - 1) + [k + 1]
  }

  /** The question events count 2, 3, ..., k + 1. */
  lemma {:induction false} QuestionCurrents(k: nat, n: nat)
    ensures Currents(QuestionsUpTo(k, n)) == Counting(k)
  {
    if k > 0 {
      var front, last := QuestionsUpTo(k - 1, n), QuestionEvent(k - 1, n);
      QuestionCurrents(k - 1, n);
      CurrentsAppend(front, [last]);
      CurrentsSingle(last);
      calc {
        Currents(QuestionsUpTo(k, n));
        Currents(front + [last]);
        Currents(front) + Currents([last]);
        Counting(k - 1) + [k + 1];
        Counting(k);
      }
    }
  }

  predicate StrictlyIncreasing(s: seq<nat>) {
    forall i, j :: 0 <= i < j < |s| ==> s[i] < s[j]
  }

  /** The progress of a run that scores the questions: 0, 1, 2 .. n + 1, 63,
      and 64 when it gets as far as saving. */
  lemma ScoredRunCurrents(e: Exit, n: nat)
    requires e.UrlThrew? || e.InsertThrew? || e.Inserted?
    ensures Currents(StreamEvents(e, n)) ==
      [0, 1] + Counting(n) + (if e.UrlThrew? then [63] else [63, 64])
  {
    var front, tail := [Checking, Verifying] + QuestionProgress(n), ScoredTail(e);
    assert StreamEvents(e, n) == front + tail;
    CurrentsAppend(front, tail);
    FrontCurrents(n);
    TailCurrents(e);
  }

  /** The progress before the tail: 0, 1, then 2 .. n + 1. */
  lemma FrontCurrents(n: nat)
    ensures Currents([Checking, Verifying] + QuestionProgress(n)) == [0, 1] + Counting(n)
  {
    var head: seq<Event> := [Checking, Verifying];
    PairCurrents(Checking, Verifying);
    CurrentsSingle(Checking);
    CurrentsSingle(Verifying);
    assert Currents(head) == [0, 1];
    QuestionCurrents(n, n);
    CurrentsAppend(head, QuestionProgress(n));
  }

  lemma PairCurrents(a: Event, b: Event)
    ensures Currents([a, b]) == Currents([a]) + Currents([b])
  {
    assert [a, b] == [a] + [b];
    CurrentsAppend([a], [b]);
  }

  lemma TailCurrents(e: Exit)
    requires e.UrlThrew? || e.InsertThrew? || e.Inserted?
    ensures Currents(ScoredTail(e)) == if e.UrlThrew? then [63] else [63, 64]
  {
    var tail := ScoredTail(e);
    CurrentsSingle(Fetching);
    CurrentsSingle(tail[|tail| - 1]);
    if e.UrlThrew? {
      PairCurrents(Fetching, tail[1]);
    } else {
      CurrentsSingle(Saving);
      assert tail == [Fetching, Saving] + [tail[2]];
      CurrentsAppend([Fetching, Saving], [tail[2]]);
      PairCurrents(Fetching, Saving);
    }
  }

  /** With the total fixed at 64, the progress of a scored run only counts
      up when there are at most 61 questions; with more, the question events
      reach 63 and 64 before "Fetching Wikipedia URL..." says 63 again. */
  lemma ProgressIncreasingExactly(e: Exit, n: nat)
    requires e.UrlThrew? || e.InsertThrew? || e.Inserted?
    ensures StrictlyIncreasing(Currents(StreamEvents(e, n))) <==> n <= 61
  {
    ScoredRunCurrents(e, n);
    var c := Currents(StreamEvents(e, n));
    if n > 61 {
      assert c[n + 1] == n + 1 && c[n + 2] == 63;
    }
  }

  /** No progress event claims more than the total as long as there are at
      most 63 questions. */
  lemma ProgressWithinTotalExactly(e: Exit, n: nat)
    requires e.UrlThrew? || e.InsertThrew? || e.Inserted?
    ensures (forall i :: 0 <= i < |Currents(StreamEvents(e, n))| ==> Currents(StreamEvents(e, n))[i] <= Total)
      <==> n <= 63
  {
    ScoredRunCurrents(e, n);
    var c := Currents(StreamEvents(e, n));
    if n > 63 {
      assert c[n + 1] == n + 1;
    }
  }
}

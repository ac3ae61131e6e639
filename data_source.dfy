/**
  The HTTP retriever data source: each poll retrieves the page, reports a
  retrieval failure (event 1) or clears it, runs every point's value and time
  extraction over the page, updates the points that extracted, and raises or
  clears the parse-exception event (event 2) with the first qualifying error.

  The events and point updates the data source issues go to collaborators
  (the data source base class and the points); the model records them, in
  order, in the actions trace.
 */
module DataSource {
  import opened Messages
  import opened Retriever

  const DataRetrievalFailureEvent: int := 1
  const ParseExceptionEvent: int := 2

  /** The address whose polling start is delayed, and the delay added per start. */
  const SlowPanelAddress: string := "http://192.168.1.102"
  const SlowPanelDelayMillis: int := 60000

  /** A typed point value; its representation belongs to the point's data type. */
  type MangoValue

  /** A point and its locator settings; the patterns are read only by the extractors. */
  datatype DataPoint = DataPoint(id: nat, valuePattern: string, timePattern: string, ignoreIfMissing: bool)

  /** The two kinds of exception the extraction utilities throw. */
  datatype Thrown =
    | NoMatchException(message: Message)
    | LocalizableException(message: Message)

  datatype Extracted<T> = Got(value: T) | Threw(exception: Thrown)

  /**
    The value and time extraction utilities: the value pattern applied to the
    page, and the time pattern applied to the page with the poll time as the
    fallback.
   */
  datatype Extractors = Extractors(
    getValue: (DataPoint, string) -> Extracted<MangoValue>,
    getValueTime: (int, DataPoint, string) -> Extracted<int>)

  /** What the data source asks of its collaborators, in order. */
  datatype Action =
    | RaiseEvent(eventType: int, time: int, rtnApplicable: bool, message: Message)
    | ReturnToNormal(eventType: int, time: int)
    | UpdatePointValue(pointId: nat, value: MangoValue, time: int)
      /** The base class's point removal. */
    | RemovePoint(point: DataPoint)
      /** The polling timer task, with its initial delay and period. */
    | StartTimer(delay: int, period: int)

  /** One point's extraction: the time pattern runs only once the value has extracted. */
  function Extract(x: Extractors, data: string, time: int, p: DataPoint): Extracted<(MangoValue, int)> {
    match x.getValue(p, data)
    case Threw(e) => Threw(e)
    case Got(v) =>
      match x.getValueTime(time, p, data)
      case Threw(e) => Threw(e)
      case Got(t) => Got((v, t))
  }

  /** The update a point gets: one when value and time both extracted, none otherwise. */
  function UpdateOf(p: DataPoint, e: Extracted<(MangoValue, int)>): seq<Action> {
    if e.Got? then [UpdatePointValue(p.id, e.value.0, e.value.1)] else []
  }

  /**
    The error a point contributes: a no-match only when the point does not
    ignore missing values, any other extraction exception always.
   */
  function ErrorOf(p: DataPoint, e: Extracted<(MangoValue, int)>): Option<Message> {
    match e
    case Got(_) => None
    case Threw(NoMatchException(m)) => if p.ignoreIfMissing then None else Some(m)
    case Threw(LocalizableException(m)) => Some(m)
  }

  /** The point updates of one poll, in point order. */
  function Updates(x: Extractors, data: string, time: int, ps: seq<DataPoint>): seq<Action> {
    if ps == [] then []
    else Updates(x, data, time, ps[..|ps| - 1]) + UpdateOf(ps[|ps| - 1], Extract(x, data, time, ps[|ps| - 1]))
  }

  /** The first error in point order, if any. */
  function FirstParseError(x: Extractors, data: string, time: int, ps: seq<DataPoint>): Option<Message> {
    if ps == [] then None
    else
      var earlier := FirstParseError(x, data, time, ps[..|ps| - 1]);
      if earlier.Some? then earlier else ErrorOf(ps[|ps| - 1], Extract(x, data, time, ps[|ps| - 1]))
  }

  /** What a poll asks of its collaborators, given what getData yielded. */
  function PollActions(url: string, time: int, fetched: FetchOutcome, points: seq<DataPoint>, x: Extractors): seq<Action> {
    match fetched
    case Crashed(reason) => [RaiseEvent(DataRetrievalFailureEvent, time, true, RetrievalError(url, reason))]
    case Failed(m) => [RaiseEvent(DataRetrievalFailureEvent, time, true, m)]
    case Fetched(data) =>
      var err := FirstParseError(x, data, time, points);
      [ReturnToNormal(DataRetrievalFailureEvent, time)]
      + Updates(x, data, time, points)
      + [if err.Some? then RaiseEvent(ParseExceptionEvent, time, false, err.value)
         else ReturnToNormal(ParseExceptionEvent, time)]
  }

  /** t occurs in s at position i. */
  predicate OccursAt(s: string, t: string, i: int) {
    0 <= i && i + |t| <= |s| && s[i..i + |t|] == t
  }

  /** String.indexOf: the first position where t occurs in s, or -1. */
  function IndexOf(s: string, t: string): (r: int)
    ensures r == -1 || OccursAt(s, t, r)
    ensures r == -1 <==> forall i :: 0 <= i <= |s| ==> !OccursAt(s, t, i)
    ensures forall i :: 0 <= i < r ==> !OccursAt(s, t, i)
  {
    IndexFrom(s, t, 0)
  }

  function IndexFrom(s: string, t: string, from: nat): (r: int)
    requires from <= |s| + 1
    requires forall i :: 0 <= i < from ==> !OccursAt(s, t, i)
    ensures r == -1 || (from <= r && OccursAt(s, t, r))
    ensures r == -1 <==> forall i :: 0 <= i <= |s| ==> !OccursAt(s, t, i)
    ensures forall i :: 0 <= i < r ==> !OccursAt(s, t, i)
    decreases |s| + 1 - from
  {
    if from + |t| > |s| then
      assert forall i :: from <= i <= |s| ==> !OccursAt(s, t, i);
      -1
    else if s[from..from + |t|] == t then from
    else IndexFrom(s, t, from + 1)
  }

  /** The polling start delay that every data source of the process shares (a static field). */
  class DelayCounter {
    var millis: int

    constructor ()
      ensures millis == 0
    {
      millis := 0;
    }
  }

  class HttpRetrieverDataSource {
    const url: string
    const timeoutSeconds: int
    const retries: int
    const pollingPeriodMillis: int
    const sharedDelay: DelayCounter
    /** Everything the data source has asked of its collaborators so far. */
    var actions: seq<Action>

    constructor (url: string, timeoutSeconds: int, retries: int, pollingPeriodMillis: int, sharedDelay: DelayCounter)
      ensures this.url == url && this.timeoutSeconds == timeoutSeconds && this.retries == retries
      ensures this.pollingPeriodMillis == pollingPeriodMillis && this.sharedDelay == sharedDelay
      ensures actions == []
    {
      this.url := url;
      this.timeoutSeconds := timeoutSeconds;
      this.retries := retries;
      this.pollingPeriodMillis := pollingPeriodMillis;
      this.sharedDelay := sharedDelay;
      actions := [];
    }

    /** removeDataPoint: event 2 returns to normal unconditionally, then the base class removes the point. */
    method RemoveDataPoint(point: DataPoint, now: int)
      modifies this
      ensures actions == old(actions) + [ReturnToNormal(ParseExceptionEvent, now), RemovePoint(point)]
      ensures LastEvent(actions, ParseExceptionEvent) == Some(ReturnToNormal(ParseExceptionEvent, now))
    {
      actions := actions + [ReturnToNormal(ParseExceptionEvent, now)];
      actions := actions + [RemovePoint(point)];
      assert actions[..|actions| - 1][|actions| - 2] == ReturnToNormal(ParseExceptionEvent, now);
    }

    /**
      beginPolling: the timer starts after the shared delay, and every start
      for the slow panel's address adds a minute to the delay of later starts.
     */
    method BeginPolling()
      modifies this, sharedDelay
      ensures actions == old(actions) + [StartTimer(old(sharedDelay.millis), pollingPeriodMillis)]
      ensures sharedDelay.millis == old(sharedDelay.millis)
        + (if IndexOf(url, SlowPanelAddress) != -1 then SlowPanelDelayMillis else 0)
    {
      actions := actions + [StartTimer(sharedDelay.millis, pollingPeriodMillis)];
      if IndexOf(url, SlowPanelAddress) != -1 {
        sharedDelay.millis := sharedDelay.millis + SlowPanelDelayMillis;
      }
    }

    /**
      doPoll. points is the base class's point list at the start of the poll;
      attempts is what the network does on each retrieval attempt.
     */
    method DoPoll(time: int, points: seq<DataPoint>, attempts: seq<Attempt>, x: Extractors)
      requires forall j :: 0 <= j < |attempts| ==> ValidAttempt(attempts[j])
      requires AttemptLimit(retries) <= |attempts|
      modifies this
      ensures actions == old(actions) + PollActions(url, time, FetchResult(url, attempts, retries), points, x)
    {
      var fetched, _ := GetData(url, timeoutSeconds, retries, attempts);
      if !fetched.Fetched? {
        var lm := if fetched.Failed? then fetched.message else RetrievalError(url, fetched.reason);
        actions := actions + [RaiseEvent(DataRetrievalFailureEvent, time, true, lm)];
        return;
      }

      actions := actions + [ReturnToNormal(DataRetrievalFailureEvent, time)];
      var data := fetched.data;
      var parseErrorMessage: Option<Message> := None;
      for i := 0 to |points|
        invariant actions == old(actions) + [ReturnToNormal(DataRetrievalFailureEvent, time)]
          + Updates(x, data, time, points[..i])
        invariant parseErrorMessage == FirstParseError(x, data, time, points[..i])
      {
        var dp := points[i];
        assert points[..i + 1][..i] == points[..i];
        // The try block: value, then time, then the update; either extraction may throw.
        var caught: Option<Thrown> := None;
        var value := x.getValue(dp, data);
        if value.Threw? {
          caught := Some(value.exception);
        } else {
          var valueTime := x.getValueTime(time, dp, data);
          if valueTime.Threw? {
            caught := Some(valueTime.exception);
          } else {
            actions := actions + [UpdatePointValue(dp.id, value.value, valueTime.value)];
          }
        }
        match caught {
          case None =>
          case Some(NoMatchException(m)) =>
            if !dp.ignoreIfMissing {
              if parseErrorMessage.None? {
                parseErrorMessage := Some(m);
              }
            }
          case Some(LocalizableException(m)) =>
            if parseErrorMessage.None? {
              parseErrorMessage := Some(m);
            }
        }
      }
      assert points[..|points|] == points;

      if parseErrorMessage.Some? {
        actions := actions + [RaiseEvent(ParseExceptionEvent, time, false, parseErrorMessage.value)];
      } else {
        actions := actions + [ReturnToNormal(ParseExceptionEvent, time)];
      }
    }
  }

  predicate IsEventAction(a: Action, eventType: int) {
    (a.RaiseEvent? || a.ReturnToNormal?) && a.eventType == eventType
  }

  /** The most recent raise or return-to-normal of an event type in a trace. */
  function LastEvent(trace: seq<Action>, eventType: int): (r: Option<Action>)
    ensures r.Some? ==> r.value in trace
    ensures r.Some? ==>
      exists k :: 0 <= k < |trace| && trace[k] == r.value && IsEventAction(r.value, eventType)
        && forall j :: k < j < |trace| ==> !IsEventAction(trace[j], eventType)
    ensures r.None? ==> forall k :: 0 <= k < |trace| ==> !IsEventAction(trace[k], eventType)
  {
    if trace == [] then None
    else if IsEventAction(trace[|trace| - 1], eventType) then Some(trace[|trace| - 1])
    else LastEvent(trace[..|trace| - 1], eventType)
  }

  /** Actions appended to a trace decide an event's state only if they mention that event. */
  lemma {:induction false} LastEventAppend(t: seq<Action>, s: seq<Action>, eventType: int)
    ensures LastEvent(t + s, eventType)
      == if LastEvent(s, eventType).Some? then LastEvent(s, eventType) else LastEvent(t, eventType)
    decreases |s|
  {
    if s == [] {
      assert t + s == t;
    } else {
      assert (t + s)[..|t + s| - 1] == t + s[..|s| - 1];
      LastEventAppend(t, s[..|s| - 1], eventType);
    }
  }

  /** Point updates of a list split in two are the updates of each part, in order. */
  lemma {:induction false} UpdatesAppend(x: Extractors, data: string, time: int, ps: seq<DataPoint>, qs: seq<DataPoint>)
    ensures Updates(x, data, time, ps + qs) == Updates(x, data, time, ps) + Updates(x, data, time, qs)
    decreases |qs|
  {
    if qs == [] {
      assert ps + qs == ps;
    } else {
      assert (ps + qs)[..|ps + qs| - 1] == ps + qs[..|qs| - 1];
      UpdatesAppend(x, data, time, ps, qs[..|qs| - 1]);
    }
  }

  /** The first error of a list split in two is the first part's, if any, else the second part's. */
  lemma {:induction false} FirstParseErrorAppend(x: Extractors, data: string, time: int, ps: seq<DataPoint>, qs: seq<DataPoint>)
    ensures FirstParseError(x, data, time, ps + qs)
      == if FirstParseError(x, data, time, ps).Some? then FirstParseError(x, data, time, ps)
         else FirstParseError(x, data, time, qs)
    decreases |qs|
  {
    if qs == [] {
      assert ps + qs == ps;
    } else {
      assert (ps + qs)[..|ps + qs| - 1] == ps + qs[..|qs| - 1];
      FirstParseErrorAppend(x, data, time, ps, qs[..|qs| - 1]);
    }
  }

  /**
    Every point whose value and time extract gets its update, whatever the
    other points do, and every update belongs to such a point.
   */
  lemma {:induction false} UpdatesExactly(x: Extractors, data: string, time: int, ps: seq<DataPoint>, a: Action)
    ensures a in Updates(x, data, time, ps) <==>
      exists j :: 0 <= j < |ps| && Extract(x, data, time, ps[j]).Got? && a == UpdateOf(ps[j], Extract(x, data, time, ps[j]))[0]
  {
    if ps != [] {
      var init := ps[..|ps| - 1];
      UpdatesExactly(x, data, time, init, a);
      if a in Updates(x, data, time, ps) {
        if a !in Updates(x, data, time, init) {
          var j := |ps| - 1;
          assert Extract(x, data, time, ps[j]).Got? && a == UpdateOf(ps[j], Extract(x, data, time, ps[j]))[0];
        } else {
          var j :| 0 <= j < |init| && Extract(x, data, time, init[j]).Got? && a == UpdateOf(init[j], Extract(x, data, time, init[j]))[0];
          assert ps[j] == init[j];
        }
      }
      if exists j :: 0 <= j < |ps| && Extract(x, data, time, ps[j]).Got? && a == UpdateOf(ps[j], Extract(x, data, time, ps[j]))[0] {
        var j :| 0 <= j < |ps| && Extract(x, data, time, ps[j]).Got? && a == UpdateOf(ps[j], Extract(x, data, time, ps[j]))[0];
        if j < |init| {
          assert init[j] == ps[j];
        }
      }
    }
  }

  /**
    The recorded message is the error of the first point, in list order,
    that has one; there is none exactly when no point has an error.
   */
  lemma {:induction false} FirstParseErrorIsFirst(x: Extractors, data: string, time: int, ps: seq<DataPoint>)
    ensures FirstParseError(x, data, time, ps).None? <==>
      forall j :: 0 <= j < |ps| ==> ErrorOf(ps[j], Extract(x, data, time, ps[j])).None?
    ensures FirstParseError(x, data, time, ps).Some? ==>
      exists j :: 0 <= j < |ps|
        && FirstParseError(x, data, time, ps) == ErrorOf(ps[j], Extract(x, data, time, ps[j]))
        && forall i :: 0 <= i < j ==> ErrorOf(ps[i], Extract(x, data, time, ps[i])).None?
  {
    if ps != [] {
      var init := ps[..|ps| - 1];
      FirstParseErrorIsFirst(x, data, time, init);
      assert forall j :: 0 <= j < |init| ==> init[j] == ps[j];
      if FirstParseError(x, data, time, init).Some? {
        var j :| 0 <= j < |init|
          && FirstParseError(x, data, time, init) == ErrorOf(init[j], Extract(x, data, time, init[j]))
          && forall i :: 0 <= i < j ==> ErrorOf(init[i], Extract(x, data, time, init[i])).None?;
        assert ErrorOf(ps[j], Extract(x, data, time, ps[j])).Some?;
      }
    }
  }

  /**
    The time pattern is evaluated only for points whose value extracted: time
    extractors that agree on those points give the same poll.
   */
  lemma {:induction false} TimeOnlyAfterValue(url: string, time: int, fetched: FetchOutcome, ps: seq<DataPoint>,
                                               x: Extractors, y: Extractors)
    requires x.getValue == y.getValue
    requires fetched.Fetched? ==> forall p :: p in ps && x.getValue(p, fetched.data).Got? ==>
      x.getValueTime(time, p, fetched.data) == y.getValueTime(time, p, fetched.data)
    ensures PollActions(url, time, fetched, ps, x) == PollActions(url, time, fetched, ps, y)
  {
    if fetched.Fetched? {
      SameExtraction(fetched.data, time, ps, x, y);
    }
  }

  lemma {:induction false} SameExtraction(data: string, time: int, ps: seq<DataPoint>, x: Extractors, y: Extractors)
    requires x.getValue == y.getValue
    requires forall p :: p in ps && x.getValue(p, data).Got? ==> x.getValueTime(time, p, data) == y.getValueTime(time, p, data)
    ensures Updates(x, data, time, ps) == Updates(y, data, time, ps)
    ensures FirstParseError(x, data, time, ps) == FirstParseError(y, data, time, ps)
  {
    if ps != [] {
      var last := ps[|ps| - 1];
      assert last in ps;
      assert Extract(x, data, time, last) == Extract(y, data, time, last);
      SameExtraction(data, time, ps[..|ps| - 1], x, y);
    }
  }

  /**
    A failed retrieval raises event 1 with return-to-normal applicable, leaves
    event 2 as it was and updates no point.
   */
  lemma RetrievalFailureAborts(url: string, time: int, fetched: FetchOutcome, ps: seq<DataPoint>, x: Extractors,
                               before: seq<Action>)
    requires !fetched.Fetched?
    ensures var polled := PollActions(url, time, fetched, ps, x);
      && |polled| == 1 && polled[0].RaiseEvent? && polled[0].eventType == DataRetrievalFailureEvent && polled[0].rtnApplicable
      && LastEvent(before + polled, DataRetrievalFailureEvent) == Some(polled[0])
      && LastEvent(before + polled, ParseExceptionEvent) == LastEvent(before, ParseExceptionEvent)
  {
  }

  /**
    A successful retrieval first returns event 1 to normal; afterwards event 1
    is normal, and event 2 is raised (not return-to-normal applicable) with the
    first error exactly when there is one, and returned to normal otherwise.
   */
  lemma {:induction false} RetrievalSuccessSettlesEvents(url: string, time: int, data: string, ps: seq<DataPoint>,
                                                         x: Extractors, before: seq<Action>)
    ensures var polled := PollActions(url, time, Fetched(data), ps, x);
      && polled[0] == ReturnToNormal(DataRetrievalFailureEvent, time)
      && LastEvent(before + polled, DataRetrievalFailureEvent) == Some(ReturnToNormal(DataRetrievalFailureEvent, time))
      && LastEvent(before + polled, ParseExceptionEvent) ==
         Some(match FirstParseError(x, data, time, ps)
              case Some(m) => RaiseEvent(ParseExceptionEvent, time, false, m)
              case None => ReturnToNormal(ParseExceptionEvent, time))
  {
    var polled := PollActions(url, time, Fetched(data), ps, x);
    var updates := Updates(x, data, time, ps);
    NoEventsInUpdates(x, data, time, ps);
    var last := polled[|polled| - 1];
    assert polled == [ReturnToNormal(DataRetrievalFailureEvent, time)] + updates + [last];
    LastEventAppend(before, polled, DataRetrievalFailureEvent);
    LastEventAppend(before, polled, ParseExceptionEvent);
    LastEventAppend([ReturnToNormal(DataRetrievalFailureEvent, time)], updates, DataRetrievalFailureEvent);
    LastEventAppend([ReturnToNormal(DataRetrievalFailureEvent, time)] + updates, [last], DataRetrievalFailureEvent);
    LastEventAppend([ReturnToNormal(DataRetrievalFailureEvent, time)] + updates, [last], ParseExceptionEvent);
  }

  lemma {:induction false} NoEventsInUpdates(x: Extractors, data: string, time: int, ps: seq<DataPoint>)
    ensures forall a :: a in Updates(x, data, time, ps) ==> a.UpdatePointValue?
  {
    if ps != [] {
      NoEventsInUpdates(x, data, time, ps[..|ps| - 1]);
    }
  }

  /**
    The two events are independent: a poll whose extraction failed, followed by
    a poll whose retrieval failed, leaves both events raised.
   */
  lemma BothEventsActive(url: string, t1: int, t2: int, data: string, ps: seq<DataPoint>, x: Extractors,
                         failure: Message, before: seq<Action>)
    requires FirstParseError(x, data, t1, ps).Some?
    ensures var after := before + PollActions(url, t1, Fetched(data), ps, x) + PollActions(url, t2, Failed(failure), ps, x);
      && LastEvent(after, DataRetrievalFailureEvent) == Some(RaiseEvent(DataRetrievalFailureEvent, t2, true, failure))
      && LastEvent(after, ParseExceptionEvent)
         == Some(RaiseEvent(ParseExceptionEvent, t1, false, FirstParseError(x, data, t1, ps).value))
  {
  }

  /**
    Whatever came before, removing a point leaves event 2 returned to normal,
    and event 1 as it was.
   */
  lemma {:induction false} RemovalClearsParseEvent(before: seq<Action>, point: DataPoint, now: int)
    ensures var after := before + [ReturnToNormal(ParseExceptionEvent, now), RemovePoint(point)];
      && LastEvent(after, ParseExceptionEvent) == Some(ReturnToNormal(ParseExceptionEvent, now))
      && LastEvent(after, DataRetrievalFailureEvent) == LastEvent(before, DataRetrievalFailureEvent)
  {
    var removal := [ReturnToNormal(ParseExceptionEvent, now), RemovePoint(point)];
    assert removal[..1] == [ReturnToNormal(ParseExceptionEvent, now)];
    assert removal[..1][..0] == [];
    LastEventAppend(before, removal, ParseExceptionEvent);
    LastEventAppend(before, removal, DataRetrievalFailureEvent);
  }
}

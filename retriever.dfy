/**
  getData: one retrieval with bounded retry. Every attempt builds a client,
  issues a GET, releases the connection if the request object was built, and
  either returns the body of a status-200 answer or, while retries remain,
  sleeps and tries again.
 */
module Retriever {
  import opened Messages
  import opened BodyReader

  /** HttpStatus.SC_OK, the only status that counts as success. */
  const StatusOk: int := 200

  /**
    Stands for the message the framework derives from the NullPointerException
    thrown when a body stream is missing; the text is an arbitrary tag.
   */
  const NullBodyReason: string := "java.lang.NullPointerException"

  /** What the network does on one attempt. */
  datatype Attempt =
      /** Building the HTTP client threw; this happens outside the guarded block. */
    | ClientFailure(reason: string)
      /** The GET request could not be built (a malformed URL), so there is no connection to release. */
    | RequestRejected(reason: string)
      /** Executing the request threw. */
    | TransportFailure(reason: string)
      /** The server answered; a missing body stream is None. */
    | Response(code: int, body: Option<ChunkStream>)

  /** The outcome of getData, as doPoll sees it. */
  datatype FetchOutcome =
      /** The body of the successful answer. */
    | Fetched(data: string)
      /** A LocalizableException carrying the last attempt's message. */
    | Failed(message: Message)
      /** Any other exception, escaping without a retry. */
    | Crashed(reason: string)

  /** The retriever's observable effects, in order. */
  datatype NetAction =
      /** Attempt number i starts (a client is requested). */
    | Try(attempt: nat)
      /** releaseConnection() on the request of attempt i. */
    | Release(attempt: nat)
      /** The one-second pause before the next attempt. */
    | Sleep

  predicate ValidAttempt(a: Attempt) {
    a.Response? && a.body.Some? ==> WellFormed(a.body.value)
  }

  /** The request object was built, so the finally block releases its connection. */
  predicate Constructed(a: Attempt) {
    a.TransportFailure? || a.Response?
  }

  /** The attempt answered status 200 with a body to read. */
  predicate Succeeds(a: Attempt) {
    a.Response? && a.code == StatusOk && a.body.Some?
  }

  /** The attempt leaves the loop whatever the retry counter says. */
  predicate Ends(a: Attempt) {
    a.ClientFailure? || Succeeds(a)
  }

  /** Attempts allowed for a retry count: retries + 1, and one when retries <= 0. */
  function AttemptLimit(retries: int): (n: nat)
    ensures n >= 1
    ensures retries <= 0 ==> n == 1
    ensures retries > 0 ==> n == retries + 1
  {
    if retries <= 0 then 1 else retries + 1
  }

  /**
    The number of attempts made within a limit: up to and including the first
    attempt that ends the loop, and never more than the limit.
   */
  function AttemptsMade(attempts: seq<Attempt>, limit: nat): (k: nat)
    requires 1 <= limit <= |attempts|
    ensures 1 <= k <= limit
    ensures forall j :: 0 <= j < k - 1 ==> !Ends(attempts[j])
    ensures Ends(attempts[k - 1]) || k == limit
  {
    AttemptsFrom(attempts, 0, limit)
  }

  function AttemptsFrom(attempts: seq<Attempt>, i: nat, limit: nat): (k: nat)
    requires i < limit <= |attempts|
    requires forall j :: 0 <= j < i ==> !Ends(attempts[j])
    ensures i < k <= limit
    ensures forall j :: 0 <= j < k - 1 ==> !Ends(attempts[j])
    ensures Ends(attempts[k - 1]) || k == limit
    decreases limit - i
  {
    if Ends(attempts[i]) || i + 1 == limit then i + 1 else AttemptsFrom(attempts, i + 1, limit)
  }

  /** The characterisation in AttemptsMade's contract fixes its value. */
  lemma AttemptsMadeIs(attempts: seq<Attempt>, limit: nat, k: nat)
    requires 1 <= k <= limit <= |attempts|
    requires forall j :: 0 <= j < k - 1 ==> !Ends(attempts[j])
    requires Ends(attempts[k - 1]) || k == limit
    ensures AttemptsMade(attempts, limit) == k
  {
  }

  /** The message of a failed attempt that does not end the loop. */
  function FailureMessage(url: string, a: Attempt): Message
    requires !Ends(a)
  {
    match a
    case RequestRejected(reason) => ExceptionMessage(reason)
    case TransportFailure(reason) => ExceptionMessage(reason)
    case Response(code, _) => if code == StatusOk then ExceptionMessage(NullBodyReason) else HttpResponse(url, code)
  }

  /** The effects of attempt j alone: it starts, and its connection is released if its request was built. */
  function AttemptTrace(attempts: seq<Attempt>, j: nat): seq<NetAction>
    requires j < |attempts|
  {
    [Try(j)] + (if Constructed(attempts[j]) then [Release(j)] else [])
  }

  /** The effects of the first k attempts, with a pause between consecutive attempts. */
  function RunTrace(attempts: seq<Attempt>, k: nat): seq<NetAction>
    requires k <= |attempts|
  {
    if k == 0 then []
    else RunTrace(attempts, k - 1) + (if k > 1 then [Sleep] else []) + AttemptTrace(attempts, k - 1)
  }

  /** What getData yields for a run of attempts. */
  function FetchResult(url: string, attempts: seq<Attempt>, retries: int): FetchOutcome
    requires forall j :: 0 <= j < |attempts| ==> ValidAttempt(attempts[j])
    requires AttemptLimit(retries) <= |attempts|
  {
    var last := attempts[AttemptsMade(attempts, AttemptLimit(retries)) - 1];
    if last.ClientFailure? then Crashed(last.reason)
    else if Succeeds(last) then Fetched(Collected(last.body.value.chunks))
    else Failed(FailureMessage(url, last))
  }

  /**
    getData. attempts[i] is what the network does on the i-th attempt; it
    must cover every attempt the retry count allows.
   */
  method GetData(url: string, timeoutSeconds: int, retries: int, attempts: seq<Attempt>)
    returns (outcome: FetchOutcome, trace: seq<NetAction>)
    requires forall j :: 0 <= j < |attempts| ==> ValidAttempt(attempts[j])
    requires AttemptLimit(retries) <= |attempts|
    ensures outcome == FetchResult(url, attempts, retries)
    ensures trace == RunTrace(attempts, AttemptsMade(attempts, AttemptLimit(retries)))
  {
    var left := retries;
    var i: nat := 0;
    trace := [];
    while true
      invariant i + AttemptLimit(left) == AttemptLimit(retries)
      invariant i > 0 ==> left >= 0
      invariant forall j :: 0 <= j < i ==> !Ends(attempts[j])
      invariant trace == RunTrace(attempts, i) + (if i > 0 then [Sleep] else [])
      decreases left
    {
      ghost var before := trace;
      var a := attempts[i];
      trace := trace + [Try(i)];
      if a.ClientFailure? {
        outcome := Crashed(a.reason);
        AttemptsMadeIs(attempts, AttemptLimit(retries), i + 1);
        assert trace == before + AttemptTrace(attempts, i);
        return;
      }
      // The finally block releases the connection whenever the request was built.
      var message: Message;
      if a.RequestRejected? {
        message := ExceptionMessage(a.reason);
      } else if a.TransportFailure? {
        message := ExceptionMessage(a.reason);
        trace := trace + [Release(i)];
      } else if a.code == StatusOk && a.body.Some? {
        var data := ReadResponseBody(a.body.value);
        trace := trace + [Release(i)];
        AttemptsMadeIs(attempts, AttemptLimit(retries), i + 1);
        assert trace == before + AttemptTrace(attempts, i);
        outcome := Fetched(data);
        return;
      } else {
        // A missing body stream makes the reader constructor throw a NullPointerException.
        message := if a.code == StatusOk then ExceptionMessage(NullBodyReason) else HttpResponse(url, a.code);
        trace := trace + [Release(i)];
      }
      assert trace == before + AttemptTrace(attempts, i);
      assert message == FailureMessage(url, a);
      if left <= 0 {
        AttemptsMadeIs(attempts, AttemptLimit(retries), i + 1);
        outcome := Failed(message);
        return;
      }
      left := left - 1;
      trace := trace + [Sleep];
      i := i + 1;
    }
  }

  /** The number of pauses in a trace. */
  function Sleeps(trace: seq<NetAction>): nat {
    if trace == [] then 0 else Sleeps(trace[..|trace| - 1]) + (if trace[|trace| - 1] == Sleep then 1 else 0)
  }

  lemma {:induction false} SleepsAppend(s: seq<NetAction>, t: seq<NetAction>)
    ensures Sleeps(s + t) == Sleeps(s) + Sleeps(t)
    decreases |t|
  {
    if t != [] {
      assert (s + t)[..|s + t| - 1] == s + t[..|t| - 1];
      SleepsAppend(s, t[..|t| - 1]);
    } else {
      assert s + t == s;
    }
  }

  /** k attempts are separated by exactly k - 1 pauses, and the trace never ends with a pause. */
  lemma {:induction false} RunTraceSleeps(attempts: seq<Attempt>, k: nat)
    requires 1 <= k <= |attempts|
    ensures Sleeps(RunTrace(attempts, k)) == k - 1
    ensures RunTrace(attempts, k)[|RunTrace(attempts, k)| - 1] != Sleep
  {
    var t := AttemptTrace(attempts, k - 1);
    assert Sleeps(t) == 0 by {
      assert [Try(k - 1)][..0] == [];
      assert Sleeps([Try(k - 1)]) == 0;
      if Constructed(attempts[k - 1]) {
        assert t == [Try(k - 1), Release(k - 1)];
        assert t[..1] == [Try(k - 1)];
      } else {
        assert t == [Try(k - 1)];
      }
    }
    if k == 1 {
      assert RunTrace(attempts, k) == [] + [] + t;
    } else {
      RunTraceSleeps(attempts, k - 1);
      SleepsAppend(RunTrace(attempts, k - 1) + [Sleep], t);
      SleepsAppend(RunTrace(attempts, k - 1), [Sleep]);
    }
  }

  /** Attempt j starts in a run of k attempts exactly when j < k. */
  lemma {:induction false} RunTraceTries(attempts: seq<Attempt>, k: nat, j: nat)
    requires k <= |attempts|
    ensures Try(j) in RunTrace(attempts, k) <==> j < k
  {
    if k > 0 {
      RunTraceTries(attempts, k - 1, j);
    }
  }

  /** The connection of attempt j is released exactly when attempt j was made and built its request. */
  lemma {:induction false} RunTraceReleases(attempts: seq<Attempt>, k: nat, j: nat)
    requires k <= |attempts|
    ensures Release(j) in RunTrace(attempts, k) <==> j < k && Constructed(attempts[j])
  {
    if k > 0 {
      RunTraceReleases(attempts, k - 1, j);
    }
  }

  /**
    getData attempts at most retries + 1 times, and exactly once (attempt 0)
    when retries <= 0: no attempt beyond the retry count appears in its trace.
   */
  lemma {:induction false} AttemptsWithinRetries(attempts: seq<Attempt>, retries: int, j: nat)
    requires AttemptLimit(retries) <= |attempts|
    ensures Try(j) in RunTrace(attempts, AttemptsMade(attempts, AttemptLimit(retries))) ==>
      j <= (if retries <= 0 then 0 else retries)
    ensures retries <= 0 ==> (Try(j) in RunTrace(attempts, AttemptsMade(attempts, AttemptLimit(retries))) <==> j == 0)
  {
    RunTraceTries(attempts, AttemptsMade(attempts, AttemptLimit(retries)), j);
  }

  /**
    A 200 answer with a body on attempt j, after j attempts that neither
    succeeded nor crashed and within the limit, is the last attempt, and its
    body is what getData returns.
   */
  lemma FirstSuccessIsReturned(url: string, attempts: seq<Attempt>, retries: int, j: nat)
    requires forall i :: 0 <= i < |attempts| ==> ValidAttempt(attempts[i])
    requires AttemptLimit(retries) <= |attempts|
    requires j < AttemptLimit(retries) && Succeeds(attempts[j])
    requires forall i :: 0 <= i < j ==> !Ends(attempts[i])
    ensures AttemptsMade(attempts, AttemptLimit(retries)) == j + 1
    ensures FetchResult(url, attempts, retries) == Fetched(Collected(attempts[j].body.value.chunks))
  {
  }

  /**
    When no allowed attempt succeeds or crashes, every allowed attempt is made
    and getData fails with the message of the last one.
   */
  lemma AllFailuresExhaustRetries(url: string, attempts: seq<Attempt>, retries: int)
    requires forall i :: 0 <= i < |attempts| ==> ValidAttempt(attempts[i])
    requires AttemptLimit(retries) <= |attempts|
    requires forall i :: 0 <= i < AttemptLimit(retries) ==> !Ends(attempts[i])
    ensures AttemptsMade(attempts, AttemptLimit(retries)) == AttemptLimit(retries)
    ensures FetchResult(url, attempts, retries) == Failed(FailureMessage(url, attempts[AttemptLimit(retries) - 1]))
  {
  }

  /** Only status 200 is success: any other code, 2xx included, fails with the URL and the code. */
  lemma OnlyStatusOkSucceeds(url: string, code: int, body: Option<ChunkStream>)
    requires code != StatusOk
    ensures !Ends(Response(code, body))
    ensures FailureMessage(url, Response(code, body)) == HttpResponse(url, code)
  {
  }

  /**
    A server that always fails transport, with retry count n >= 0, sees
    n + 1 attempts and n pauses before getData fails.
   */
  lemma {:induction false} AlwaysFailingTransport(url: string, attempts: seq<Attempt>, n: nat)
    requires forall i :: 0 <= i < |attempts| ==> attempts[i].TransportFailure?
    requires n + 1 <= |attempts|
    ensures AttemptsMade(attempts, AttemptLimit(n)) == n + 1
    ensures Sleeps(RunTrace(attempts, n + 1)) == n
    ensures FetchResult(url, attempts, n) == Failed(ExceptionMessage(attempts[n].reason))
  {
    AllFailuresExhaustRetries(url, attempts, n);
    RunTraceSleeps(attempts, n + 1);
  }
}

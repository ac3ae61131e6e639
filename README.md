# HTTP retriever data source — Dafny model

This project models the polling core of Mango's HTTP retriever data source
(`HttpRetrieverDataSourceRT`). On each poll the data source fetches a page with
bounded retry. It reports a retrieval failure as event 1, or clears that event.
It then runs every data point's value and time extraction over the page and
updates each point that extracted. Finally it raises the parse-exception event 2
with the first qualifying error, or clears it.

Modules, one per part of the source file:

- `Messages` (`messages.dfy`): the localizable messages, kept as tagged values, and `Option`.
- `BodyReader` (`body_reader.dfy`): `readResponseBody`. A `ChunkReader` class delivers the
  body chunk by chunk into a 2048-character array. `ReadResponseBody` appends chunks until the
  stream ends or a read fails. It also stops at the in-band end marker: a read of exactly four
  characters whose first is code 4. It is proved equal to the specification function `Collected`.
- `Retriever` (`retriever.dfy`): `getData`. The network is a sequence of per-attempt outcomes:
  client creation throws, request construction throws, transport throws, or the server answers
  with a status and an optional body stream. `GetData` keeps the source's counter-driven loop.
  It returns the outcome and a trace of attempts, connection releases and sleeps. Both are proved
  equal to `FetchResult` and `RunTrace`. Lemmas prove which attempts start, which connections are
  released, and how many sleeps the trace holds.
- `DataSource` (`data_source.dfy`): the class `HttpRetrieverDataSource` with `DoPoll`,
  `RemoveDataPoint` and `BeginPolling`. The calls the source makes to its collaborators
  (`raiseEvent`, `returnToNormal`, `updatePointValue`, `super.removeDataPoint`, the timer task)
  are appended to the `actions` trace. `LastEvent` reads the state of an event off that trace.

Behaviour of the source worth noting:

- End marker. The loop stops only on a read of exactly four characters starting with code 4
  (`HttpRetrieverDataSourceRT.java:199-200`). It does not stop on every chunk whose first
  character is code 4. Such a chunk of any other length is kept in full
  (`SentinelAloneDoesNotStop`).
- Point removal. `removeDataPoint` returns event 2 to normal every time, even when other
  points remain.
- Retry count. A retry count of zero or less gives exactly one attempt.
- Client creation. A failure to build the HTTP client happens outside the guarded block. It
  escapes `getData` at once, with no retry and no release. `doPoll` then reports it with the
  `RetrievalError` message.
- Missing body stream. A status-200 answer without a body stream makes the reader constructor
  throw a NullPointerException. The attempt's catch block treats that as a failed attempt.
- Alarm state. Idempotent raise and clear belong to the event handling of the base class, which
  is not part of this model. The model records the calls in order.

## Model

| member | source | states |
|---|---|---|
| `BodyReader.ReadResponseBody` | mango-source-1.12.3/src/com/serotonin/mango/rt/dataSource/http/HttpRetrieverDataSourceRT.java:187-216 | the text returned is exactly the chunks before the first end marker, joined in order; a read that throws ends the loop with that same text and no error |
| `BodyReader.ChunkReader.Read` | mango-source-1.12.3/src/com/serotonin/mango/rt/dataSource/http/HttpRetrieverDataSourceRT.java:196-204 | a read copies the next chunk into the buffer and returns its length; after the last chunk it returns -1 or throws |
| `BodyReader.StopIndex` | mango-source-1.12.3/src/com/serotonin/mango/rt/dataSource/http/HttpRetrieverDataSourceRT.java:199-200 | the index of the first chunk that is exactly four characters long and starts with code 4; no earlier chunk is a marker |
| `BodyReader.CollectedUpToStop` | mango-source-1.12.3/src/com/serotonin/mango/rt/dataSource/http/HttpRetrieverDataSourceRT.java:196-205 | the result is the join of the chunks before the first end marker; the marker and everything after it are excluded |
| `BodyReader.CollectedIsPrefix` | mango-source-1.12.3/src/com/serotonin/mango/rt/dataSource/http/HttpRetrieverDataSourceRT.java:189-215 | the result is always a prefix of the whole body |
| `BodyReader.CollectedWithoutMarker` | mango-source-1.12.3/src/com/serotonin/mango/rt/dataSource/http/HttpRetrieverDataSourceRT.java:199-205 | without an end marker the whole body is returned |
| `BodyReader.CollectedPrefixChunks` | mango-source-1.12.3/src/com/serotonin/mango/rt/dataSource/http/HttpRetrieverDataSourceRT.java:201-204 | chunks already appended stay in the result whatever later reads deliver |
| `BodyReader.SentinelAloneDoesNotStop` | mango-source-1.12.3/src/com/serotonin/mango/rt/dataSource/http/HttpRetrieverDataSourceRT.java:199-202 | a chunk that starts with code 4 but is not four characters long is appended in full and reading continues |
| `Retriever.AttemptsWithinRetries` | mango-source-1.12.3/src/com/serotonin/mango/rt/dataSource/http/HttpRetrieverDataSourceRT.java:170-172 | no attempt beyond retries + 1 appears in getData's trace, and when retries <= 0 the only attempt is the first |
| `Retriever.AttemptsMade` | mango-source-1.12.3/src/com/serotonin/mango/rt/dataSource/http/HttpRetrieverDataSourceRT.java:146-181 | the attempts made stop at the first one that succeeds or escapes, and never exceed the limit; no attempt follows a success |
| `Retriever.GetData` | mango-source-1.12.3/src/com/serotonin/mango/rt/dataSource/http/HttpRetrieverDataSourceRT.java:143-184 | the loop yields the specified outcome (the body of the first status-200 answer, the last attempt's message once retries run out, or an escaping client failure) and the specified trace of attempts, releases and sleeps |
| `Retriever.RunTraceSleeps` | mango-source-1.12.3/src/com/serotonin/mango/rt/dataSource/http/HttpRetrieverDataSourceRT.java:170-180 | k attempts are separated by exactly k - 1 sleeps, and no sleep follows the last attempt |
| `Retriever.RunTraceTries` | mango-source-1.12.3/src/com/serotonin/mango/rt/dataSource/http/HttpRetrieverDataSourceRT.java:146-153 | attempt j is made exactly when j is below the number of attempts made |
| `Retriever.RunTraceReleases` | mango-source-1.12.3/src/com/serotonin/mango/rt/dataSource/http/HttpRetrieverDataSourceRT.java:148-168 | the connection of attempt j is released exactly when the attempt was made and its request object was built, the successful attempt included |
| `Retriever.FirstSuccessIsReturned` | mango-source-1.12.3/src/com/serotonin/mango/rt/dataSource/http/HttpRetrieverDataSourceRT.java:153-158 | a status-200 answer within the limit, after attempts that only failed, is the last attempt, and its body is returned |
| `Retriever.AllFailuresExhaustRetries` | mango-source-1.12.3/src/com/serotonin/mango/rt/dataSource/http/HttpRetrieverDataSourceRT.java:170-171 | when every allowed attempt fails, all of them are made and the failure carries the last attempt's message |
| `Retriever.OnlyStatusOkSucceeds` | mango-source-1.12.3/src/com/serotonin/mango/rt/dataSource/http/HttpRetrieverDataSourceRT.java:154-160 | any status other than 200, other 2xx codes included, is a failed attempt whose message carries the URL and the code |
| `Retriever.AlwaysFailingTransport` | mango-source-1.12.3/src/com/serotonin/mango/rt/dataSource/http/HttpRetrieverDataSourceRT.java:162-180 | with retry count n and a transport that always throws, n + 1 attempts and n sleeps are made before the failure |
| `DataSource.HttpRetrieverDataSource.constructor` | mango-source-1.12.3/src/com/serotonin/mango/rt/dataSource/http/HttpRetrieverDataSourceRT.java:58-62 | the data source keeps its configuration and starts with no actions |
| `DataSource.HttpRetrieverDataSource.DoPoll` | mango-source-1.12.3/src/com/serotonin/mango/rt/dataSource/http/HttpRetrieverDataSourceRT.java:88-141 | the poll appends exactly the specified actions: event 1 raised and return, or event 1 cleared, the point updates in order, then event 2 raised with the first error or cleared |
| `DataSource.HttpRetrieverDataSource.RemoveDataPoint` | mango-source-1.12.3/src/com/serotonin/mango/rt/dataSource/http/HttpRetrieverDataSourceRT.java:64-68 | event 2 is returned to normal before the base class removes the point, and is normal afterwards |
| `DataSource.HttpRetrieverDataSource.BeginPolling` | mango-source-1.12.3/src/com/serotonin/mango/rt/dataSource/http/HttpRetrieverDataSourceRT.java:76-86 | the timer starts after the shared delay, which grows by 60000 ms on every start for a URL containing the slow panel's address |
| `DataSource.IndexOf` | mango-source-1.12.3/src/com/serotonin/mango/rt/dataSource/http/HttpRetrieverDataSourceRT.java:83-84 | the first position where the address occurs in the URL, and -1 exactly when it does not occur |
| `DataSource.RetrievalFailureAborts` | mango-source-1.12.3/src/com/serotonin/mango/rt/dataSource/http/HttpRetrieverDataSourceRT.java:91-101 | a failed retrieval raises event 1 with return to normal applicable and nothing else: no point update, event 2 unchanged |
| `DataSource.RetrievalSuccessSettlesEvents` | mango-source-1.12.3/src/com/serotonin/mango/rt/dataSource/http/HttpRetrieverDataSourceRT.java:104-140 | after a successful retrieval the first action clears event 1; event 2 ends raised, not return-to-normal applicable, with the first error if there is one, and cleared otherwise |
| `DataSource.UpdatesExactly` | mango-source-1.12.3/src/com/serotonin/mango/rt/dataSource/http/HttpRetrieverDataSourceRT.java:109-124 | a point gets an update exactly when its value and its time both extract, whatever the other points do |
| `DataSource.UpdatesAppend` | mango-source-1.12.3/src/com/serotonin/mango/rt/dataSource/http/HttpRetrieverDataSourceRT.java:109-135 | points are processed independently and in list order: the updates of a split list are the updates of each part, in order |
| `DataSource.FirstParseErrorIsFirst` | mango-source-1.12.3/src/com/serotonin/mango/rt/dataSource/http/HttpRetrieverDataSourceRT.java:125-134 | the recorded message is the error of the first point, in list order, that has one; there is none exactly when no point has an error |
| `DataSource.FirstParseErrorAppend` | mango-source-1.12.3/src/com/serotonin/mango/rt/dataSource/http/HttpRetrieverDataSourceRT.java:125-134 | an earlier point's error wins over every later point's error |
| `DataSource.TimeOnlyAfterValue` | mango-source-1.12.3/src/com/serotonin/mango/rt/dataSource/http/HttpRetrieverDataSourceRT.java:113-120 | the time pattern matters only for points whose value extracted |
| `DataSource.BothEventsActive` | mango-source-1.12.3/src/com/serotonin/mango/rt/dataSource/http/HttpRetrieverDataSourceRT.java:100-138 | the two events are independent: an extraction failure followed by a retrieval failure leaves both raised |
| `DataSource.RemovalClearsParseEvent` | mango-source-1.12.3/src/com/serotonin/mango/rt/dataSource/http/HttpRetrieverDataSourceRT.java:65-67 | whatever came before, event 2 is normal after a removal and event 1 is unchanged |

`ErrorOf` gives each point's error. A no-match counts only when the point does not ignore
missing values. Any other extraction exception always counts, whatever `ignoreIfMissing` says.

## Left out

- HTTP client, request, status constants and network I/O. Each attempt is an abstract outcome. The per-attempt timeout (`timeoutSeconds * 1000`, including its 32-bit overflow) only configures the client, so it is not modelled.
- `Thread.sleep(1000)` and its ignored interruption. They are timing only, so each is a `Sleep` entry in the trace.
- Character decoding by `InputStreamReader`. The body is modelled directly as character chunks.
- `stream.close()`. It is not modelled. When a read throws, the source skips it and leaves the stream open.
- `e.printStackTrace()` in the two catch blocks of the body reader. It is logging only, so it is not modelled.
- Chunk lengths count Unicode scalar values, not UTF-16 code units. A Dafny `char` is a whole Unicode scalar value, while Java's `read` and `cbuf` count UTF-16 units. So chunks holding characters outside the Basic Multilingual Plane (the first 65,536 code points) are out of scope. That covers a read that splits a surrogate pair, and the end-marker test and the 2048 bound on such chunks.
- `DataSourceUtils.getValue` and `getValueTime`. Their regex, number and date parsing is not part of this model. They are function parameters returning a value, a no-match exception or another localizable exception.
- `raiseEvent`, `returnToNormal`, `updatePointValue` and the base class's point removal. Their semantics belong to classes that are not part of this model. Each is recorded as an action. `DoPoll` therefore takes the base class's point list as a parameter.
- `setPointValue`. It is a no-op.
- `READ_LIMIT`. It is unused, because the call that enforced it is commented out.
- The text of localized messages. Messages are tagged values.
- Polling concurrency and scheduling in the base class. The model covers one call at a time.
- `DataSource.HttpRetrieverDataSource.BeginPolling`: the shared delay is an unbounded integer, so the 64-bit `long` overflow is not modelled. The console message it prints is not modelled either.

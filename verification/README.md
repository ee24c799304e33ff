# h2loadrunner in Dafny

h2loadrunner is an HTTP/1.1 and HTTP/2 load generator with a built-in mock server. This project models its
algorithms and state machines and proves what they promise. `dafny verify dfyconfig.toml` checks all of it.

Code that works step by step on buffers, counters and queues is modelled as classes and methods with loops;
each is proved against a function on values, and the properties are lemmas about that function or about all
runs of a state machine whose steps are those functions. Sockets, timers, clocks, random numbers, the HTTP/2
session, regular expressions and JSON pointers are parameters: every answer they can give is allowed.

| file | what it models |
|---|---|
| `Basics.dfy`, `FiniteSets.dfy` | bytes, options, machine words; the first and last element of an ordered set |
| `PathJoin.dfy` | joining and normalizing URI paths in one buffer, against section 5.2.4 of RFC 3986 |
| `PathSlashes.dfy` | adjacent slashes: which of them are dropped, and redirects of paths without ".." |
| `PathLevels.dfy` | exactly when the result is that of the RFC, for every input |
| `PathRedirects.dfy` | exactly when one redirect is enough, for every path |
| `PathNormalize.dfy` | percent-decoding before the join |
| `ServeMux.dfy` | the server's request multiplexer and its redirects |
| `LinkHeader.dfy` | the parser of Link header fields |
| `Base64.dfy` | base64 encoders and decoders |
| `BlockAllocator.dfy` | the bump allocator with lengths stored in the memory it hands out |
| `ClientLifecycle.dfy` | the steps of a load-generating client and its worker, as functions |
| `BaseClient.dfy` | the same steps as methods on the client's fields, proved equal |
| `ClientInvariants.dfy` | what every step of every run keeps |
| `Outcomes.dfy` | which requests count as succeeded, failed and given up, over every run |
| `CountedMode.dfy`, `TimedMode.dfy`, `Pacing.dfy` | accounting with a number of requests, with a duration, and the request rate |
| `Phases.dfy` | the phases and timers of a timed test, and the connection of a client after every event |
| `RequestsLeft.dfy` | the assertion that a paced client has a request left when its connection is made |
| `TimedReport.dfy`, `WholeTest.dfy` | the final report of a timed test; a whole counted test, from the split of its requests to the report |
| `Failover.dfy` | the queue of alternative hosts |
| `Http1Pipeline.dfy` | the order of pipelined HTTP/1.1 responses |
| `ClientWriter.dfy`, `ServerWriter.dfy` | the asynchronous write paths |
| `Response.dfy`, `Trailers.dfy` | server responses, push promises, bodies and trailers |
| `MatchRules.dfy`, `MatchServices.dfy` | the mock server's choice of a service, with its memo |
| `CommonMultiples.dfy`, `Scheduler.dfy` | weighted choices |
| `Shares.dfy` | the documented share of each scenario and response, over the draws that can be made |
| `Slicing.dfy` | user-id ranges split over clients |
| `WorkSplit.dfy` | requests split over threads and clients |
| `TimeStat.dfy` | one-pass statistics |

## Where the code is not what one would expect

The model follows the code. In these places a property one would expect is false; the lemmas named give an
input that shows it, and say exactly when the property holds or what holds instead.

- A client counts its own streams twice, so only half of the configured number of concurrent streams is ever
  opened (`CountedMode.HalfOfTheMaximum`).
- A refused submission of a client that may reconnect is counted as failed and stays to be sent
  (`CountedMode.FailureBalancedIff`, `RetryCountsTwice`).
- A connection that is replaced keeps its in-flight counter (`SwitchExactIff`, `SwitchLosesStream`); a warm-up
  stream that closes in the main phase lowers it (`TimedMode.CloseKeepsInflightIff`,
  `WarmupStreamIsCountedOff`).
- In timed runs the final subtraction wraps exactly when a connection was lost or a submission refused in the
  main phase (`TimedReport.TimedReportWrapsIff`, `GivesUpIff`, `TimedReportWraps`).
- A path made of "." segments keeps the file name of its base (`PathJoin.JoinIsRfcMergeIff`, `FileNameIsKept`).
- Slashes behind a copied segment are dropped, which section 5.2.4 of RFC 3986 does not do
  (`PathLevels.JoinIsRfcExactly`, `MergeIsRfcExactly`, `JoinExamples`, `MergeExample`). Slashes behind a "." or
  ".." segment are not, so one redirect may lead to a second (`PathRedirects.OneRedirectExactly`,
  `PathSlashes.OneRedirectIsNotEnough`).
- Over HTTP/1.1 the target of a redirect is encoded and not decoded again (`ServeMux.EncodedPathIsSameIff`,
  `EncodedPercent`).
- A paced client that switches to its preferred host without a request left fails an assertion
  (`RequestsLeft.AssertFailsIff`, `SwitchWithoutRequests`).
- A percent sign that starts no triplet can become one when what follows it is decoded
  (`PathNormalize.DecodeTwiceIff`, `HiddenDotsSurvive`).
- A registration can report success and be lost (`ServeMux.RegistrationTakesEffectIff`, `RegistrationCanBeLost`).
- The fields of a match rule are compared as one string without separators, so different rules can share a memo
  entry (`MatchServices.SecondRuleRightIff`, `MemoCanMislead`).
- A host that is listed twice loses its copy (`Failover.CandidateConservesIff`, `DuplicateIsLost`).
- Closing an HTTP/1.1 stream whose response is ready stops all later responses: a write looks up a stream that
  is gone, or nothing is written any more (`Http1Pipeline.LostStopsLater`, `CloseLeavesRoomIff`, `CloseThenFault`,
  `CloseThenSilence`).
- A frame larger than the output buffer would not be written, and the next copy of the stash would pass the end
  of the buffer (`ServerWriter.FirstFrameIsWrittenIff`, `OversizedFrame`); the protocol library promises that
  there is none.
- A promise reported for a response that was not pushed would start it twice (`Response.StartedOnceIff`,
  `StartedTwice`); the caller reports it only for streams it marked as pushed
  (`asio_server_http2_handler.cc:226`, `:477`).
- Trailers written after the body was read are sent on a stream that has ended (`Trailers.TooLateIff`,
  `TooLateExample`).
- Draws are of type int, so a schedule with a total above 2^31 does not give the documented shares, unless only one
  scenario has a weight (`Shares.SharesAreDrawnIff`, `LargeTotalOfOne`, `Scheduler.NeverDrawn`). Where a product or
  sum reaches 2^64 the total is wrong (`Scheduler.TotalIsRightIff`), and the shares can be wrong
  (`Shares.WrappedLosesScenario`, `Scheduler.MultipleCanWrap`).
- The running maximum of samples starts from the smallest positive number (`TimeStat.GreatestIsSampleIff`,
  `GreatestOfZero`).

## Model

| member | source | states |
|---|---|---|
| `PathJoin.EatFileAt` | http2.cc:1861-1886 | in place, the buffer up to the new cursor is the text with its last file name dropped; the cursor is never 0 |
| `PathJoin.EatDirAt` | http2.cc:1891-1900 | in place, the buffer up to the new cursor is the text with its last directory dropped; at the root it stays at the root |
| `PathJoin.SkipSlashesFrom` | http2.cc:1944-1948 | the cursor passes over exactly one run of slashes |
| `PathJoin.CopySegment` | http2.cc:1986-1999 | one ordinary segment is copied over the last file name inside the room left, and the rest of the walk is unchanged |
| `PathJoin.WalkBuffer` | http2.cc:1958-2000 | the segment loop writes at most one character for each character read, and leaves what the segment-by-segment specification says |
| `PathJoin.FinishWithQuery` | http2.cc:2001-2008 | question mark, query and final NUL are appended, in bounds |
| `PathJoin.JoinBuffer` | http2.cc:1903-2008 | for every base, relative path and queries: all writes stay in a buffer of the size computed beforehand, and the text before the NUL is the specified join |
| `PathJoin.JoinHasNoDotSegments` | http2.cc:1903-2008 | for every relative path and every base that is empty or itself normalized, the result is rooted and has no "." or ".." segment |
| `PathJoin.JoinParts` | http2.cc:1903-2008 | a rooted path does not look at the base, an empty path is the base, and the query is that of the reference unless it has neither path nor query (section 5.2.2 of RFC 3986) |
| `PathJoin.WalkIsRemoveDotSegments` | http2.cc:1958-2000 | the segment loop is remove_dot_segments (section 5.2.4 of RFC 3986, written out letter by letter as an input and an output buffer) applied to the input with the slash runs it collapses |
| `PathJoin.JoinIsRfcOfSqueezed` | http2.cc:1903-2008 | without a base, for every input: the result is that of the RFC for the input whose slash runs at the start and after ordinary segments are single slashes |
| `PathJoin.JoinIsRfc` | http2.cc:1903-2008 | without a base and without adjacent slashes the result is exactly that of the RFC |
| `PathJoin.DoubleSlashDiffers` | http2.cc:1998-1999 | an input with adjacent slashes on which the code and the RFC differ |
| `PathJoin.JoinIsRfcMergeIff` | http2.cc:1939-1989 | with a base, for every relative path: the result is what the RFC (merge, then remove_dot_segments) makes of the relative path with its slash runs squeezed if and only if the base ends with a slash or the relative path is more than "." segments; otherwise the code keeps the file name of the base |
| `PathJoin.FileNameIsKept` | http2.cc:1958-1989 | "." joined to "/a/b" gives "/a/b" and not the "/a/" of the RFC |
| `PathLevels.JoinIsRfcExactly` | http2.cc:1903-2008 | without a base, for every input, with and without "..": the result is that of the RFC if and only if the levels by which the RFC is deeper, one for each slash the code drops, are all taken back by ".." at the root of the code |
| `PathLevels.MergeIsRfcExactly` | http2.cc:1903-2008 | with a base, for every relative path: the result is that of the RFC (merge, then remove_dot_segments) if and only if that gap closes and the base ends with a slash or the relative path is more than "." segments |
| `PathLevels.GapIs` | http2.cc:1958-2000 | at the end of the loop the output has exactly that many slashes fewer than the output of the RFC, and is the same text if there is no gap |
| `PathLevels.PlainIsRfc` | http2.cc:1958-2000 | the loop without the skipping of slashes is remove_dot_segments |
| `PathLevels.JoinIsRfcIff` | http2.cc:1958-2000 | for inputs without "..": without a base, the result is that of the RFC if and only if no slash follows another slash, except one that ends a "." segment |
| `PathLevels.MergeIsRfcIff` | http2.cc:1939-2000 | the same with a base: if and only if the base ends with a slash or the relative path is more than "." segments, and no slash is dropped |
| `PathLevels.NothingDroppedIsRfc` | http2.cc:1958-2000 | for every input without a base in which no slash is dropped, with and without "..", the result is that of the RFC |
| `PathLevels.JoinExamples` | http2.cc:1958-2000 | "a//../b" is not joined as the RFC says, and "a//../../b" is, although a slash is dropped |
| `PathLevels.MergeExample` | http2.cc:1998-1999 | "b//c" is not joined to "/a/" as the RFC says |
| `PathSlashes.SqueezeIff` | http2.cc:1998-1999 | for every input, the loop skips no slash if and only if no slash follows another slash, except one that ends a "." or ".." segment |
| `PathJoin.FixedPointIffCanonical` | asio_server_serve_mux.cc:77-92 | the server leaves a path alone if and only if it is rooted, without dot segments and without adjacent slashes |
| `PathJoin.TwoRedirectsSuffice` | asio_server_serve_mux.cc:77-92 | for every path, the target of the second redirect is canonical, so there is never a third |
| `PathRedirects.OneRedirectExactly` | asio_server_serve_mux.cc:77-92 | for every path, the first redirect is canonical if and only if every empty segment that the loop copies, behind a "." or ".." segment, is removed by a later ".." |
| `PathRedirects.DoubleSlashIff` | http2.cc:1958-2000 | from any output that ends with a slash, two adjacent slashes are left if and only if an empty segment of the output or of the input stays |
| `PathRedirects.EmptySegmentRemoved` | asio_server_serve_mux.cc:77-92 | "/.//../a" has an empty segment, and is redirected only once |
| `PathSlashes.OneRedirectIff` | asio_server_serve_mux.cc:77-92 | for paths without "..", the first redirect is canonical if and only if no "." segment is directly followed by two slashes |
| `PathSlashes.OneRedirectWithoutDoubleSlash` | asio_server_serve_mux.cc:77-92 | for every path without adjacent slashes, with or without "..", the first redirect is canonical |
| `PathSlashes.OneRedirectIsNotEnough` | asio_server_serve_mux.cc:77-92 | "/.//a" is redirected to "//a", which is not canonical |
| `PathNormalize.DecodeBuffer` | http2.cc:2010-2058 | percent-decoding writes inside a buffer one longer than the input and gives the decoding of unreserved characters, other triplets in upper case |
| `PathNormalize.Normalize` | http2.cc:2010-2061 | normalize_path joins the decoded path with nothing and appends the query |
| `PathNormalize.DecodeTwiceIff` | http2.cc:2027-2055 | decoding a second time changes nothing if and only if the input hides no triplet: no percent sign that starts none stands before two characters that, decoded, make it one that decoding changes |
| `PathNormalize.WellFormedHidesNothing` | http2.cc:2027-2055 | in particular if every percent sign starts a triplet |
| `PathNormalize.SettledIff` | http2.cc:2027-2055 | a text is left alone by decoding if and only if no triplet in it is unreserved or has a lower-case digit |
| `PathNormalize.NormalizedStaysNormal` | http2.cc:2010-2061 | for every input without a hidden triplet, decoding the normalized path again changes nothing and shows no dot segment |
| `PathNormalize.HiddenDotsSurvive` | http2.cc:2010-2061 | "/%%32e%%32e/x" normalizes to "/%2e%2e/x", which decodes to "/../x" |
| `ServeMux.Multiplexer.Handle` | asio_server_serve_mux.cc:38-75 | the table after a registration: the new entry, the redirect from the pattern without its slash, and nothing else; refused if and only if the pattern is empty, there is no callback, or the pattern is taken by a user |
| `ServeMux.RegisterKeeps` | asio_server_serve_mux.cc:38-75 | every registration keeps all user-defined entries, and every implicit entry redirects to the registered pattern with a slash |
| `ServeMux.RegisterAllKeeps` | asio_server_serve_mux.cc:38-75 | so does any sequence of registrations from the empty table |
| `ServeMux.RegistrationTakesEffectIff` | asio_server_serve_mux.cc:43-74 | a registration that reports success installs its callback if and only if the pattern had no implicit redirect |
| `ServeMux.RegistrationCanBeLost` | asio_server_serve_mux.cc:72-74 | after `/a/`, registering `/a` succeeds and changes nothing |
| `ServeMux.LongestIsUnique` | asio_server_serve_mux.cc:107-126 | two longest matching patterns are equal, so the order of the table does not matter |
| `ServeMux.Multiplexer.Match` | asio_server_serve_mux.cc:107-132 | the handler of the pattern equal to the path; if there is none, of the longest pattern that ends with a slash and that the path begins with; none if and only if there is no such pattern |
| `ServeMux.RedirectReachesItsPattern` | asio_server_serve_mux.cc:48-71 | with the host of its pattern, if it has one, the target of an implicit redirect has the pattern it was made for as its longest match |
| `ServeMux.EncodedPathDecodes` | util.cc:156-173 | the path of a redirect, percent-encoded, is read back as the same path by an HTTP/2 server, which decodes it, and has no question mark before the query |
| `ServeMux.EncodedPathIsSameIff` | asio_server_http1_handler.cc:171-185 | an HTTP/1.1 server does not decode: it reads back the same path if and only if no character of it had to be encoded |
| `ServeMux.EncodedPercent` | asio_server_http1_handler.cc:171-185 | "/./%41" is redirected to "/%2541" |
| `ServeMux.LocationIsRead` | asio_server_serve_mux.cc:82-89 | what stands before the first question mark of a redirect target decodes to the path, and what stands after it is the query |
| `ServeMux.LiteralIff` | util.cc:156-173 | the characters that are not encoded: unreserved, sub-delimiters and the slash, listed |
| `ServeMux.Multiplexer.HandlerFor` | asio_server_serve_mux.cc:77-104 | a path that is not canonical is redirected to a different one, percent-encoded and with the query; otherwise what the host and path dispatch to, then what the path dispatches to, then 404 |
| `LinkHeader.SkipLwsAt` | http2.cc:1056-1070 | cursor form of skipping white space |
| `LinkHeader.SkipToNextFieldAt` | http2.cc:1076-1091 | cursor form of skipping to the next field |
| `LinkHeader.SkipToRightDquoteAt` | http2.cc:1099-1118 | cursor form of skipping to the closing quote, over characters escaped by a backslash |
| `LinkHeader.ScanRelationsAt` | http2.cc:1240-1273 | the scan of a quoted list of relation types, with its malformed cases |
| `LinkHeader.ScanNameAt` | http2.cc:1353-1381 | the scan of a parameter name, with its malformed cases |
| `LinkHeader.SkipValueAt` | http2.cc:1429-1435 | cursor form of skipping an unquoted value |
| `LinkHeader.SkipParamAt` | http2.cc:1353-1443 | a parameter that is not special is skipped |
| `LinkHeader.ParamStepAt` | http2.cc:1216-1443 | one round of the parameter loop, all branches |
| `LinkHeader.ParamStepShrinks` | http2.cc:1216-1443 | every round that continues reads at least one character |
| `LinkHeader.ParamLoopAt` | http2.cc:1214-1457 | the parameter loop ends, in bounds, with the specified verdict |
| `LinkHeader.ParseOnceAt` | http2.cc:1184-1457 | each call strictly advances the cursor and stays in bounds |
| `LinkHeader.ParseOnceSlice` | http2.cc:1184-1457 | a URI returned is a slice of the input between "<" and ">" that was read by this call |
| `LinkHeader.ParseLinkHeader` | http2.cc:1460-1474 | the loop ends on every input |
| `LinkHeader.UrisAreSlices` | http2.cc:1460-1474 | for every input, the URIs returned are slices between "<" and ">" at increasing places |
| `LinkHeader.RoundTrip` | http2.cc:1184-1474 | parsing any printed list of links (with preload, quoted relation lists, parameters without a value, with an unquoted, an extended or an escaped quoted value, or without parameters) returns exactly the URIs that ask for preload, do not say nopush and have no anchor and no loadpolicy that is not empty, in order |
| `LinkHeader.FlawedHeader` | http2.cc:1184-1474 | a header whose last link has a flaw (a missing or odd name, a missing value, no closing quote, an odd character after it): the links before it are taken as if it were not there |
| `LinkHeader.WhiteSpaceIsSkipped` | http2.cc:1056-1091 | blanks and tabs before a parameter or a link mean nothing |
| `LinkHeader.MatchesIff` | http2.cc:1126-1182 | names and keywords are compared without regard to case |
| `LinkHeader.AttrCharIff` | http2.cc:1353-1381 | the characters of a parameter name are those of section 3.2.1 of RFC 5987 |
| `Base64.EncodeTo` | base64.h:101-146 | the iterator form writes exactly the encoding, of the length computed beforehand |
| `Base64.EncodeString` | base64.h:53-94 | the string form, whose loop is the same, returns the same encoding |
| `Base64.AlphabetIs` | base64.h:43-49 | the alphabet is that of table 1 of RFC 4648 |
| `Base64.EncodedLength` | base64.h:96-99 | an encoding has exactly `encode_length` characters |
| `Base64.DecodeGroup` | base64.h:161-223 | the inner loop over four characters with its three exits |
| `Base64.DecodeTo` | base64.h:161-223 | every write stays in len / 4 * 3 bytes; the result is the decoding, or the start for an invalid input |
| `Base64.DecodeString` | base64.h:225-238 | the string form, empty for an invalid length or input |
| `Base64.DecodedLength` | base64.h:161-223 | at most three bytes for four characters |
| `Base64.RoundTrip` | base64.h:53-238 | decode(encode(x)) == x for every byte string (section 4 of RFC 4648) |
| `Base64.ReverseRoundTripIff` | base64.h:161-223 | encode(decode(s)) == s if and only if the unused bits of the padded group are zero |
| `BlockAllocator.Allocator.constructor` | allocator.h:63-70 | an empty allocator whose threshold is the smaller of the two arguments |
| `BlockAllocator.Allocator.Reset` | allocator.h:98-109 | after a reset nothing is allocated |
| `BlockAllocator.Allocator.AllocBlock` | allocator.h:111-121 | a new block is chained, with its begin, last and end |
| `BlockAllocator.Allocator.Alloc` | allocator.h:123-151 | the new state, the returned pointer, and that every earlier region is intact |
| `BlockAllocator.Allocator.GetAllocLength` | allocator.h:155-159 | the length is read from the eight bytes before the pointer |
| `BlockAllocator.Allocator.Realloc` | allocator.h:168-188 | the new state and the returned pointer, growing or not |
| `BlockAllocator.AllocKeeps` | allocator.h:123-151 | an allocation keeps all regions disjoint, inside their blocks and correctly labelled; a fresh block always has room for a request that is not isolated |
| `BlockAllocator.AllocPlace` | allocator.h:123-151 | where a request is served from: a block of just its size from the threshold on, the next bytes of the head block if they are enough, or a new head block |
| `BlockAllocator.RequestFitsIff` | allocator.h:123-151 | in 64-bit arithmetic, the block a request is served from has room for it if and only if the sum of size and header is below 2^64 |
| `BlockAllocator.ReallocKeeps` | allocator.h:168-188 | the result is longer than asked for and at least doubled, starts with the old bytes, and no other region changes |
| `BlockAllocator.WriteKeeps` | allocator.h:123-151 | a caller that writes inside one region changes no other region and no stored length |
| `BlockAllocator.StepKeeps` | allocator.h:98-188 | every operation keeps the invariant |
| `BlockAllocator.HistorySafe` | allocator.h:98-188 | after any history of allocations, reallocations, writes and resets all regions with their length headers are pairwise disjoint, inside their blocks, and at least as long as asked for |
| `BlockAllocator.LastMayPassEnd` | allocator.h:136-148 | the aligned `last` can pass `end`; the next request then opens a block |
| `BaseClient.Client.SubmitRequest` | base_client.cc:2313-2401 | the client and worker after a submission, in every phase and for every answer of the session, and that it keeps the client sound and the worker's totals in step |
| `BaseClient.Client.ProcessRequestFailure` | base_client.cc:2403-2433 | the counters after a refused submission, and that it keeps the client sound and the worker's totals in step |
| `BaseClient.Client.OnRequestStart` | base_client.cc:1928-1960 | a new stream, marked as counted in the main phase and in the graceful shutdown |
| `BaseClient.Client.SubmitUpTo` | base_client.cc:1843-1849 | up to n submissions, until one fails |
| `BaseClient.Client.ConnectionMade` | base_client.cc:1778-1890 | the first requests of a new connection, or the start of the rate timer, and that it keeps the client sound, the worker's totals in step and, in counted runs, the requests balanced and the in-flight counter exact |
| `BaseClient.Client.OnRpsTimer` | base_client.cc:1566-1618 | the grant of a tick and the submissions it allows, and that it keeps the client sound, the worker's totals in step and, in counted runs, the requests balanced and the in-flight counter exact |
| `BaseClient.Client.CountFinished` | base_client.cc:1666-1704 | which counters a finished request raises: success, success by status, failed, error and done, each by its own condition |
| `BaseClient.Client.CloseCounters` | base_client.cc:1640-1719 | the counters after a stream closed, known or not |
| `BaseClient.Client.OnStreamClose` | base_client.cc:1640-1748 | the whole of a stream close, of a known or an unknown stream, with the request that takes its place: the counters move by what the event adds to the tally, the client stays sound and the worker's totals in step; for a known stream of a counted run the requests stay balanced and the in-flight counter exact |
| `BaseClient.Client.ProcessAbandonedStreams` | base_client.cc:735-754 | requests given up with a connection, and that it keeps the client sound and the worker's totals in step |
| `BaseClient.Client.Fail` | base_client.cc:716-721 | disconnect, then give up, and that it keeps the client sound, the worker's totals in step and, in counted runs, the requests balanced and the in-flight counter exact |
| `BaseClient.Client.Timeout` | base_client.cc:723-733 | the idle timeout of a connection, and that it keeps the client sound, the worker's totals in step and, in counted runs, the requests balanced and the in-flight counter exact |
| `BaseClient.Client.HandleConnectionError` | asio_client_connection.cc:707-725 | a lost connection: retry, fail, or another host, and that it keeps the client sound, the worker's totals in step and, in counted runs, the requests balanced and the in-flight counter exact |
| `BaseClient.Client.SwitchConnection` | base_client.cc:1765-1776 | the connection is replaced and the counters are left alone, and that the client stays sound |
| `BaseClient.Client.Connect` | base_client.cc:70-102 | the first connection of a timed test starts the warm-up; a finished test is not connected, and that it keeps the client sound, the worker's totals in step and, in counted runs, the requests balanced and the in-flight counter exact |
| `BaseClient.SharedWorker.DurationTimeout` | base_worker.cc:203-221 | the phase after the main duration, with or without a grace period |
| `ClientInvariants.EventSound` | base_client.cc:1566-2433 | every event of a client keeps it sound: streams only on a connection, at most half of the maximum (rounded up) open, and started == done + open counted streams + discarded |
| `ClientInvariants.StepSound` | base_worker.cc:203-251 | every step of a worker keeps all clients sound and its totals equal to the sums over its clients, and the phase does not go back |
| `ClientInvariants.RunSound` | base_worker.cc:124-251 | so does every run |
| `ClientInvariants.PhaseChange` | base_client.cc:76-89 | a client changes the phase only from idle to warm-up |
| `CountedMode.EventCounted` | base_client.cc:1566-2433 | with a fixed number of requests and no reconnection, every event keeps done + in flight + left + given up == to do, in flight == number of open streams, and `req_left` above zero where it is decremented |
| `CountedMode.NoRequestIsLost` | base_client.cc:1640-1748 | in every reachable state both equations hold for every client, successes and failures never exceed the requests to do, and are all of them once the clients are finished |
| `CountedMode.WorkerTotals` | base_client.cc:716-754 | a worker whose clients balance has outcomes for at most its requests, for exactly its requests when they are finished |
| `Outcomes.OutcomesAreCounted` | base_client.cc:1640-1748 | for every run from the start, in every mode: successes by status are the counted streams closed with a good answer, successes those with any answer, failures and errors what was given up together with the bad answers and the streams without one |
| `Outcomes.EventMoves` | base_client.cc:1640-1748 | what each event adds to the counters, told from the event and the state before it |
| `Outcomes.FailLoses` | base_client.cc:716-753 | a failed connection costs the requests in flight, and those left unless the client may reconnect; outside the main phase it costs nothing |
| `Outcomes.ErrorLoses` | asio_client_connection.cc:707-725 | an error costs them once, although the client fails twice, and reconnects if and only if it may |
| `Outcomes.TimeoutLoses` | base_client.cc:723-733 | a timeout does nothing to a client that may reconnect, and is a loss otherwise |
| `CountedMode.MadeCounted` | base_client.cc:1778-1890 | in counted runs, the assertion that a connecting client has requests left holds, and the first requests keep the balance |
| `RequestsLeft.StaleStep` | base_client.cc:1765-1776 | in every mode, only a switch to another host makes a client connect without a request left |
| `RequestsLeft.AssertFailsIff` | base_client.cc:1829-1836 | after every run from the start, in every mode, with or without reconnection: the assertion that a paced client has a request left when its connection is made fails if and only if the client was last switched without one |
| `RequestsLeft.AssertAlwaysHolds` | base_client.cc:1829-1836 | so it holds in every run in which no client is switched without a request left |
| `RequestsLeft.SwitchWithoutRequests` | base_client.cc:1829-1836 | a run of three steps after which it fails |
| `CountedMode.FinalReport` | h2load.cc:1280-1311 | the final unsigned subtraction does not wrap; the successes are the sum over the workers, all other requests are failures, and the errors grow by those in no statistics |
| `WholeTest.WorkerOutcome` | base_worker.cc:124-202 | for every accepted configuration without reconnection and every run of a thread without an exhausted session or a switched connection, its outcomes never exceed its share of the requests, and are all of it once its clients finished |
| `WholeTest.Report` | h2load.cc:1280-1311 | for every accepted configuration without reconnection and all runs of all workers without an exhausted session or a switched connection, the report accounts for exactly the requested number of requests |
| `CountedMode.RoomDoesNotWrap` | base_client.cc:1597-1600 | the unsigned subtraction of open streams from the maximum never wraps |
| `CountedMode.HalfOfTheMaximum` | base_client.cc:110-125 | a client counts its own streams twice: a new connection opens min(requests left, half of the configured maximum rounded up) streams, even if the session accepts everything |
| `CountedMode.FailureBalancedIff` | base_client.cc:2403-2433 | a refused submission keeps the balance if and only if nothing was left, or reconnection is off and the session is not exhausted |
| `CountedMode.RetryCountsTwice` | base_client.cc:2403-2433 | with reconnection, a run of one request that ends with two outcomes, so that the final subtraction wraps |
| `CountedMode.SwitchExactIff` | base_client.cc:1765-1776 | replacing a connection keeps the in-flight counter exact if and only if nothing was in flight |
| `CountedMode.SwitchLosesStream` | base_client.cc:1765-1776 | a client with one request in flight whose counter stays at one with no stream open |
| `CountedMode.UnknownCloseExactIff` | base_client.cc:1640-1660 | so does the close of a stream the client does not know |
| `TimedMode.EventBeforeMain` | base_client.cc:2370-2388 | before the main phase no event touches a counter |
| `TimedMode.WarmupAssertsHold` | base_worker.cc:223-251 | whenever the warm-up timer can fire, the phase is WARM_UP and all assertions of its handler hold |
| `TimedMode.PhaseOnlyMovesForward` | base_worker.cc:203-251 | the phase never goes back along any run |
| `Phases.TimersAlwaysRun` | base_worker.cc:203-251 | in every reachable state of a timed test each timer runs in exactly the phases that it ends |
| `Phases.TimedTestEnds` | base_worker.cc:203-251 | from every phase the timers still to fire end the test, with a grace period if and only if there are scenarios |
| `Phases.FirstConnection` | base_client.cc:70-102 | the first connection of a timed test starts the warm-up and its timer |
| `Phases.ConnectionIs` | base_client.cc:1085-1095 | for every event in every mode, the connection state after it |
| `TimedMode.StartedIsAccountedFor` | base_client.cc:1943-1945 | in every reachable state of every mode, started == done + open counted streams + discarded |
| `TimedMode.CloseDiscardsIff` | base_client.cc:1640-1748 | a close discards a request if and only if it was counted and the test is over |
| `TimedMode.CloseKeepsInflightIff` | base_client.cc:1640-1660 | in the main phase a close keeps the in-flight counter equal to the counted streams if and only if the stream is counted or nothing is in flight |
| `TimedMode.WarmupStreamIsCountedOff` | base_client.cc:1640-1660 | a warm-up stream that closes in the main phase takes another stream off the counter |
| `TimedReport.GivesUpIff` | base_client.cc:716-754 | an event of a timed test gives requests up in bulk if and only if, in the main phase, it loses the connection with requests in flight or without a reconnection, or the session refuses a submission that there is room for |
| `TimedReport.LoopGivesUpIff` | base_client.cc:2313-2433 | a loop of submissions gives requests up if and only if one of the answers that there is room for is a refusal |
| `TimedReport.TimedReportWrapsIff` | h2load.cc:1306-1311 | after any timed run the final subtraction wraps if and only if some event of the run was one of those |
| `TimedReport.TimedReportWraps` | h2load.cc:1306-1311 | a run of three steps from the start, whose first submission after the warm-up is refused, and whose report wraps |
| `Pacing.GrantPaced` | base_client.cc:1581-1590 | one tick keeps the grants within one half of rate times elapsed time, without drift |
| `Pacing.EventPaced` | base_client.cc:1566-1748 | every event keeps it |
| `Pacing.RateIsKept` | base_client.cc:1566-1618 | in every reachable state the requests granted since the connection was made are within one half of rate times elapsed time at the last granting tick, and the requests sent are at most 1 + carried over + rate * T + 1/2 |
| `Pacing.RateIsKeptWithoutReconnection` | base_client.cc:1566-1618 | the plain bound 1 + rps * T + 1/2 when the client does not reconnect |
| `Pacing.PacedCounter` | base_client.cc:1610-1618 | for every event, how the counter of paced requests moves |
| `Failover.InitTarget` | base_client.cc:494-507 | the first host depends on the client, and the candidates are all other hosts |
| `Failover.InitialState` | base_client.cc:494-507 | with distinct hosts, whatever the shuffle, the first attempt satisfies the invariant |
| `Failover.HostQueue.ReconnectToAlt` | base_client.cc:291-320 | the failover step: from another host back to the preferred one, from the preferred one to the first candidate, and without candidates the delayed timer |
| `Failover.HostQueue.ReconnectToUsed` | base_client.cc:271-289 | the delayed step: the first used host, or the same host again |
| `Failover.HostQueue.PreferredHostUp` | base_client.cc:1765-1776 | the failback: connected to another host, the client leaves it for the preferred one and queues it behind the candidates; otherwise nothing changes |
| `Failover.StepConserves` | base_client.cc:271-320 | every failover and failback step keeps the multiset candidates + used + (current host if not preferred) |
| `Failover.RunConserves` | base_client.cc:271-320 | so does every run |
| `Failover.CandidateConservesIff` | base_client.cc:300-318 | taking a candidate keeps the multiset if and only if it is not the preferred host again: a host listed twice loses its copy |
| `Failover.DuplicateIsLost` | base_client.cc:300-318 | a host that is its own only candidate |
| `Failover.TwoFailures` | base_client.cc:291-320 | two failures in a row try the head of candidates ++ used, return to the preferred host, and rotate that queue by one |
| `Failover.EveryHostIsTried` | base_client.cc:271-320 | the k-th host of the queue is tried after exactly 2k + 1 consecutive failures |
| `Failover.TriedWithinBound` | base_client.cc:271-320 | from every reachable attempt, every host is tried within 2 * (number of other hosts) + 1 failures |
| `Failover.Failback` | base_client.cc:1765-1776 | the same of the state, with the whole queue |
| `Failover.LeftHostIsTriedAgain` | base_client.cc:1765-1776 | the host that a failback leaves is tried again after exactly 2 * (number of candidates) + 1 failures |
| `Failover.ConnectionMade` | base_client.cc:1778-1890 | a connection that is made leaves the queues alone, and only an error or a failback ends it |
| `Http1Pipeline.Http1Handler.MessageBegin` | asio_server_http1_handler.cc:27-32 | a new request number and stream, as `create_stream` asserts |
| `Http1Pipeline.Http1Handler.SetReady` | asio_server_http1_handler.cc:260-267 | a response becomes ready |
| `Http1Pipeline.Http1Handler.CloseStream` | asio_server_base_handler.cc:102-105 | a stream is closed |
| `Http1Pipeline.Http1Handler.TakeConsecutive` | asio_server_http1_handler.cc:315-330 | exactly the run of ready numbers from the oldest open stream on is taken off the ready set |
| `Http1Pipeline.Http1Handler.OnWriteIds` | asio_server_http1_handler.cc:332-352 | all streams taken are found if and only if the write does not fault; then the new state, and the invariant holds again |
| `Http1Pipeline.BatchFacts` | asio_server_http1_handler.cc:315-330 | a batch is ready, ascending, without a gap, and before all other open streams |
| `Http1Pipeline.WritesNothingIff` | asio_server_http1_handler.cc:315-330 | in every state, a write is empty if and only if no stream is open, the oldest is not ready, or a number before it is ready that has lost its stream |
| `Http1Pipeline.StepKeeps` | asio_server_http1_handler.cc:260-352 | every step that does not look up a missing stream keeps the invariant, closes of any stream included |
| `Http1Pipeline.ResponsesInOrder` | asio_server_http1_handler.cc:260-352 | over any interleaving, closes of ready streams included, as long as no write looks up a missing stream: responses are written in strictly increasing request order, at most once, and only after every earlier request was written or closed (section 6.3.2 of RFC 7230) |
| `Http1Pipeline.SafeUnlessReadyIsClosed` | asio_server_http1_handler.cc:315-350 | no write looks up a missing stream unless a stream was closed whose response was ready |
| `Http1Pipeline.LostStopsLater` | asio_server_http1_handler.cc:315-350 | after a ready number lost its stream, every run either takes a number without a stream or never writes a number above it |
| `Http1Pipeline.CloseLeavesRoomIff` | asio_util.cc:66-70 | closing an open stream leaves it possible to answer the next request if and only if the response of the closed stream is not ready |
| `Http1Pipeline.CloseThenFault` | asio_server_http1_handler.cc:344-350 | a run of five events after which a write takes the numbers 1 and 2 and finds no stream for 2 |
| `Http1Pipeline.CloseThenSilence` | asio_server_http1_handler.cc:315-330 | a run of five events after which nothing is ever written |
| `Http1Pipeline.BlockedForever` | asio_server_http1_handler.cc:315-330 | if such a number stands before all open streams, no write ever writes or faults again |
| `MatchRules.RuleOrder` | H2Server_Request.h:227-256 | the order of match rules is a strict weak order |
| `MatchRules.EquivalentIff` | H2Server_Request.h:247-256 | rules are equivalent if and only if their ranks and concatenated keys agree |
| `MatchRules.RuleLessIff` | H2Server_Request.h:227-256 | which way the order goes: rules on headers above rules on the payload, equality above the rest, and among rules of one rank the concatenated key decides |
| `MatchRules.TypeDecides` | H2Server_Request.h:247-256 | among rules of one rank the match type decides first, in the order of its enumeration |
| `MatchRules.KeyDecides` | H2Server_Request.h:247-256 | the key leaves no field out: with header names of one length and pointers of one length, equivalent rules are equal |
| `MatchRules.LessIff` | H2Server_Request.h:247-256 | the comparison of keys is lexicographic: the first place where they differ decides |
| `MatchRules.DifferentButEquivalent` | H2Server_Request.h:247-256 | different rules can be equivalent |
| `MatchRules.RequestOrder` | H2Server_Request.h:296-328 | the order of requests is a strict weak order |
| `MatchRules.RulesLessIff` | H2Server_Request.h:308-326 | the greatest rules that are not equivalent decide |
| `MatchServices.AllRulesFacts` | H2Server.h:170-179 | the set of all rules is ascending, holds only rules of the services, and covers each |
| `MatchServices.SameIdIff` | H2Server.h:181-190 | two rules get the same number if and only if they are equivalent |
| `MatchServices.RequestMessage.AnyHeaderMatches` | H2Server_Request.h:136-160 | some value of the header matches |
| `MatchServices.RequestMessage.MatchRule` | H2Server_Request.h:136-173 | the memo after a look-up; the answer is the one in the memo, or that of some value of the header, of the JSON value or of the payload |
| `MatchServices.RequestMessage.MatchRequest` | H2Server_Request.h:285-295 | the answer and the memo after the rules of one request |
| `MatchServices.RequestMessage.GetMatchedRequest` | H2Server.h:208-228 | the service found and the memo; with a fresh memo and rules told apart by their keys, a matching service than which no matching one is more specific, and none if and only if none matches |
| `MatchServices.MemoIsTransparent` | H2Server_Request.h:136-173 | when equivalent rules have equal fields, matching with the memo finds the same service as without it, for every message and every meaning of regular expressions and JSON pointers |
| `MatchServices.SecondRuleRightIff` | H2Server_Request.h:136-173 | the memo answers a second rule correctly if and only if it is not equivalent to the first or the two agree on this message |
| `MatchServices.MemoCanMislead` | H2Server_Request.h:136-173 | two services with colliding keys, and a message that the memo sends to the wrong one |
| `MatchServices.InsertServiceKeeps` | H2Server.h:193-201 | insertion keeps the services strictly ascending and keeps all of them; the new one is dropped only if an equivalent one is there |
| `MatchServices.MostSpecificWins` | H2Server.h:208-228 | the service found matches, every other matching service is smaller and has no more rules, and none is found only if none matches |
| `MatchServices.HighestRuleWins` | H2Server.h:208-228 | no matching service has more rules than the one found, or as many and a greatest rule of higher rank |
| `MatchServices.HeaderRulesWin` | H2Server.h:208-228 | a matching service with a rule on a header is not passed over for one with as many rules, all on the payload |
| `MatchServices.MatchTextIff` | H2Server_Request.h:94-124 | each match type, by what may stand before and after the text |
| `ClientWriter.OutputBuffers.constructor` | asio_client_connection.cc:47-47 | two buffers of 64 KiB |
| `ClientWriter.OutputBuffers.Reserve` | asio_client_connection.cc:264-270 | the current buffer grows and keeps its bytes; the other buffer stays |
| `ClientWriter.OutputBuffers.Push` | asio_client_connection.cc:262-274 | the bytes are appended to the current buffer, and the buffer in flight keeps its bytes |
| `ClientWriter.OutputBuffers.DoWrite` | asio_client_connection.cc:847-869 | with no write in progress the current buffer is handed over whole and the buffers change places; otherwise nothing changes |
| `ClientWriter.OutputBuffers.WriteComplete` | asio_client_connection.cc:796-825 | a successful completion hands over everything pushed, unless the write callback forbids it |
| `ClientWriter.OutputBuffers.WriteSignal` | asio_client_connection.cc:827-845 | everything the session offers before its first empty offer is pushed, and handed over unless a write is in progress |
| `ClientWriter.RunDelivers` | asio_client_connection.cc:262-286 | for every sequence of pushes, signals, completions and stops: bytes handed to writes ++ bytes waiting == all bytes pushed by the events, and the write in progress is the last part handed over |
| `ClientWriter.CompletionHandsOverAll` | asio_client_connection.cc:796-825 | a completion hands over everything pushed before it, whatever went before, unless the connection was stopped |
| `ClientWriter.EventHandsOver` | asio_client_connection.cc:796-869 | after any events, exactly which event starts a write, that it takes all bytes pushed and not handed over, and that the write is in progress until its completion |
| `ClientWriter.AnyRun` | asio_client_connection.cc:262-286 | the buffers after any sequence of events hold exactly what the events say, and the buffer in flight holds what was handed over |
| `ServerWriter.Http2Handler.OnWrite` | asio_server_http2_handler.h:94-132 | stash first, then frames until the next does not fit: the buffer, the new stash and the error |
| `ServerWriter.FillConserves` | asio_server_http2_handler.h:94-132 | no byte is lost, repeated or reordered; the output fits; there is a stash only if it did not fit |
| `ServerWriter.FillMakesProgress` | asio_server_http2_handler.h:94-132 | if every frame fits the buffer, so does the stash, and a round writes nothing if and only if there was nothing |
| `ServerWriter.FirstFrameIsWrittenIff` | asio_server_http2_handler.h:118-123 | after an idle period a frame is written if and only if it fits the buffer; a larger one becomes a stash that the next copy would take past the end of the buffer |
| `ServerWriter.OversizedFrame` | asio_server_http2_handler.h:118-123 | five bytes for a buffer of four |
| `ServerWriter.WrittenKeeps` | asio_server_connection.h:191-242 | a round loses no byte of what is drawn or still to be drawn, and leaves nothing behind if the connection is then neither writing nor stopped |
| `ServerWriter.WriteStartsIff` | asio_server_connection.h:191-242 | a connection that is neither writing nor stopped starts a write if and only if it has anything to send, and otherwise stops if and only if it should; an error stops it |
| `ServerWriter.FillFailsIff` | asio_server_http2_handler.h:94-132 | a round reports an error if and only if one is drawn before an empty answer and before a frame that does not fit |
| `ServerWriter.Connection.DoWrite` | asio_server_connection.h:191-242 | the session after it; bytes drawn ++ bytes to be drawn are unchanged; nothing touches the output buffer during a write |
| `ServerWriter.Connection.WriteCompleted` | asio_server_connection.h:228-240 | the same after a completion |
| `ServerWriter.RunDelivers` | asio_server_connection.h:191-242 | for every sequence of submissions, writes and completions: bytes drawn ++ bytes to be drawn == bytes of the frames submitted, in order, and until the connection stops, bytes handed over ++ stash == bytes drawn |
| `ServerWriter.CompletionsSendAll` | asio_server_connection.h:228-240 | with nothing but frames to send, one completion for each frame and one more hand everything over |
| `ServerWriter.AnyRun` | asio_server_connection.h:191-242 | the connection after any sequence of events is exactly what the events say, and the buffer being sent holds what was handed over |
| `Response.ServerResponse.SetHead` | asio_server_response.cc:48-63 | the first call sets status and headers, and starts the response unless a promise is still to be sent; later calls change nothing |
| `Response.ServerResponse.Finish` | asio_server_response.cc:65-91 | a body is taken once, with an empty head if none was set |
| `Response.ServerResponse.SetTrailer` | asio_server_response.cc:93-109 | the trailers wait, or are submitted at once if the body is exhausted |
| `Response.ServerResponse.PromiseSent` | asio_server_response.cc:163-172 | the first call starts a response whose head is set |
| `Response.ServerResponse.Read` | asio_server_response.cc:180-203 | the bytes and flags of a read, and the response after it |
| `Response.StepSound` | asio_server_response.cc:48-203 | on every step an accepted body stays, what is delivered is a prefix of it, all of it exactly when the end was flagged, and trailers are submitted only after that |
| `Response.StartOnlyWhenReady` | asio_server_response.cc:112-125 | a response is started only with its headers set and, if pushed, its promise sent |
| `Response.StartsClosedForm` | asio_server_response.cc:48-172 | for every order of events, how often the response is started: told from the first event that sets the headers and the first promise alone |
| `Response.HeadClosedForm` | asio_server_response.cc:48-91 | for every order of events, the status and headers of the response: those of the first event that sets them, and no later event changes them |
| `Response.ExpectsBodyIff` | http2.cc:1484-1493 | which responses have a body |
| `Response.StartedOnceIff` | asio_server_response.cc:163-172 | it is never started twice if and only if it is pushed or no promise is reported after its headers were set |
| `Response.StartedTwice` | asio_server_response.cc:163-172 | a promise reported for a response that is not pushed starts it again |
| `Response.BodyIsDelivered` | asio_common.cc:96-114 | whatever follows an accepted body, the reads deliver its first bytes, as many as they asked for, and the end is flagged if and only if a read has asked for the last |
| `Trailers.TooLateIff` | asio_server_response.cc:93-109 | for every order of events, trailers are submitted on a stream that has ended if and only if the events say so: a body is accepted, a read exhausts it, and non-empty trailers are written later, with none waiting at that read or with another read between |
| `Trailers.TooLateExample` | asio_server_response.cc:93-100 | a run in which this happens |
| `Trailers.SubmittedClosedForm` | asio_server_response.cc:93-109 | for every order of events, which body is taken, and which trailers are submitted in which order |
| `TimeStat.ComputeTimeStat` | h2load_utils.cc:509-542 | for every sample list: minimum, running maximum, mean, the square root of the variance (sample or population), and the percentage of samples within it |
| `TimeStat.Accumulate` | h2load_utils.cc:524-534 | the loop: minimum, running maximum, sum and sum of squared deviations |
| `TimeStat.WithinSd` | h2load_utils.cc:488-503 | the percentage of samples within one deviation of the mean |
| `TimeStat.CountWithinIs` | h2load_utils.cc:488-503 | the count is the number of samples in the closed interval |
| `TimeStat.GreatestIsSampleIff` | h2load_utils.cc:521-528 | the running maximum is a sample if and only if some sample is at least the smallest positive number it starts from |
| `TimeStat.GreatestOfZero` | h2load_utils.cc:521-528 | for the single sample 0 it is not |
| `TimeStat.RapidUpdate` | h2load_utils.cc:531-533 | one update keeps the running mean and the running sum of squared deviations exact |
| `TimeStat.RapidStep` | h2load_utils.cc:531-533 | the identity behind it, for every list |
| `TimeStat.MeanMinimizesDeviation` | h2load_utils.cc:509-542 | the mean is the only centre with the least sum of squared deviations |
| `CommonMultiples.FindCommonMultiple` | h2load_utils.cc:865-899 | the product, modulo 2^64, of the values that divide no other value |
| `CommonMultiples.KeepMaximal` | h2load_utils.cc:876-891 | the greedy pass in descending order keeps exactly the values that divide no other |
| `CommonMultiples.CommonMultipleDivisible` | h2load_utils.cc:865-899 | every value divides that product |
| `Scheduler.CommonMultipleServes` | base_client.cc:1278-1286 | the request counts of all scenarios divide it, and below 2^64 the number computed serves |
| `Scheduler.MultipleCanWrap` | h2load_utils.cc:893-898 | two request counts whose product leaves a number that one of them does not divide |
| `Scheduler.WidthIsExact` | base_client.cc:1294-1298 | the division in the schedule is exact, and a bucket is empty if and only if the weight is zero |
| `Scheduler.InitScheduleMap` | base_client.cc:1287-1311 | the map in 64-bit arithmetic; there is none if and only if all weights are zero; without wrap-around it has the ends of all buckets that are not empty, and its largest key is their sum |
| `Scheduler.BuildSchedules` | base_client.cc:1287-1307 | the map of buckets, as long as no product or sum reaches 2^64 |
| `Scheduler.TotalIsRightIff` | base_client.cc:1287-1311 | the largest key of the map, from which the draws are made, is the sum of the bucket widths if and only if no product and no sum reaches 2^64 |
| `Scheduler.SumIsNotLargestKey` | base_client.cc:1309-1309 | two buckets of 2^63: the running sum is 0, and the largest key 2^63 |
| `Scheduler.LargestKeyOfBuckets` | base_client.cc:1309-1309 | the largest key of a map of buckets is the sum of the widths |
| `Scheduler.PickHasWeight` | base_client.cc:1323-1331 | every draw below the largest key picks exactly one scenario, and one with a weight, also when a product or sum wrapped |
| `Scheduler.BucketExists` | base_client.cc:1325-1330 | every draw below the total lies in exactly one bucket |
| `Scheduler.Lookup` | base_client.cc:1323-1331 | the entry of the least key above the draw, or 0 |
| `Scheduler.PickedIsBucket` | base_client.cc:1323-1331 | for a draw below the total that is the bucket the draw lies in |
| `Scheduler.BucketSize` | base_client.cc:1323-1331 | as many draws as a bucket is wide lead to it |
| `Scheduler.NextScenario` | base_client.cc:1272-1331 | the look-up of the draw; for a draw below the largest key a scenario with a weight, and without wrap-around the one whose bucket the draw lies in; the first, without a draw, if there is at most one |
| `Shares.SharesAreDrawnIff` | README.md:188-196 | over the draws of type int that can be made, each answered by the map, every scenario causes the part of all requests that its weight is of all weights if and only if the largest key is at most 2^31 or only one scenario has a weight; for every schedule that does not wrap and has a draw |
| `Shares.HitsAreSharesIff` | base_client.cc:1313-1331 | the first n draws give these shares if and only if they are all draws or only one scenario has a weight |
| `Shares.PickHitsAre` | base_client.cc:1323-1331 | as many draws pick a scenario from the map as lie in its bucket |
| `Scheduler.DrawnAsWideIff` | base_client.cc:1313-1313 | draws of type int reach every bucket as often as it is wide if and only if the total is at most 2^31 |
| `Shares.LargeTotalOfOne` | base_client.cc:1308-1321 | a total of 4294967301, five draws, and the documented shares |
| `Shares.WrappedLosesScenario` | base_client.cc:1292-1298 | a product that wraps, after which a scenario with three quarters of the weight is never drawn |
| `Shares.WrappedKeepsShares` | base_client.cc:1292-1298 | a product that wraps and leaves the documented shares |
| `Scheduler.NeverDrawn` | base_client.cc:1313-1313 | weights 4294967295 and 2: the second scenario is never drawn |
| `Scheduler.InitDistributionMap` | H2Server.h:21-34 | the same map over the weights of the responses of a service |
| `Scheduler.SelectResponse` | H2Server.h:46-64 | the look-up of the draw, and the response whose bucket it lies in; the first if no response has a weight |
| `Shares.ResponseSharesIff` | H2Server.h:33-64 | over the draws of type int that can be made, each response gets the part that its weight is of all weights if and only if the weights sum to at most 2^31 or only one response has a weight |
| `Slicing.SliceVarIds` | base_client.cc:1140-1199 | slices and cursors of all variables of a client; failure if and only if some range has fewer values than clients |
| `Slicing.SlicesExistIff` | base_client.cc:1172-1190 | a range can be sliced if and only if its unsigned size is at least the number of clients |
| `Slicing.Slice64Is` | base_client.cc:1172-1199 | nothing wraps in a range whose end is not below its start; with the end 0 below the start the slices are those of all numbers up to 2^64 |
| `Slicing.SlicesPartition` | base_client.cc:1172-1199 | every value of the range belongs to the slice of exactly one client |
| `Slicing.SlicesDisjoint` | base_client.cc:1172-1199 | two clients have no value in common |
| `Slicing.ClientCursors.IncVar` | h2load.h:214-228 | every cursor moves on by one, from the end of its slice to the start |
| `Slicing.NextInSlice` | h2load.h:214-228 | a cursor is in its slice after every step, also one that was drawn from the closed range |
| `Slicing.CycleVisitsEachOnce` | h2load.h:214-228 | in one cycle a cursor visits every value of its slice exactly once and comes back |
| `Slicing.EstimateIsExact` | config_schema.h:304-347 | a value has exactly the estimated length, and every id up to the end of the range has one |
| `Slicing.TableCycles` | config_schema.h:304-316 | a table is read by column and row, and both start again at their end |
| `Slicing.ValuesDistinct` | config_schema.h:304-326 | distinct ids have distinct padded values |
| `Slicing.NoSharedValue` | base_client.cc:1172-1199 | two clients never produce the same value of a sliced variable, after any number of steps each |
| `Slicing.AssembleString` | base_client.cc:2725-2791 | segments and values alternate, and the length is the one reserved |
| `Slicing.RequestsDistinct` | base_client.cc:2725-2791 | two strings assembled from one template of range variables differ whenever an id does |
| `WorkSplit.SpawnWorkers` | h2load.cc:1150-1205 | requests, clients and rate are dealt out to the threads, the remainders to the first, and each sums to what was asked for |
| `WorkSplit.Worker.RatePeriod` | base_worker.cc:160-202 | a period creates the next batch of clients, each with its share |
| `WorkSplit.RunWorker` | base_worker.cc:124-202 | in ceil(clients / rate) periods every client is created, and the shares sum to the requests of the thread |
| `WorkSplit.SharesSumUp` | base_worker.cc:27-28 | dealing out loses nothing |
| `WorkSplit.AcceptedSplit` | h2load.cc:940-953 | in every accepted configuration each thread gets clients, a rate that does not exceed them, and at least one request for every client |
| `WorkSplit.ZeroIff` | base_client.cc:426-434 | some client gets a count of zero, which is read as unbounded, if and only if there are fewer requests than clients: the check made is the exact one |
| `WorkSplit.TwoLevelSum` | h2load.cc:1150-1205 | the counts of all clients of all threads sum exactly to the requested number |

## Left out

- Sockets, TLS, DNS, event loops, threads, signal handling, logging, command-line and JSON parsing: only the
  callbacks are modelled, as steps.
- The internals of the HTTP/2 and HTTP/1 protocol libraries, of regular expressions, JSON pointers and Lua
  scripts: they are parameters.
- The HTTP/1.1 client session, response byte formatting, cookies, CSV loading, statistics output, token tables:
  they would add only easy members.
- The libev variant of the client and worker; the asio variant is modelled.
- Clients with several destinations, timing scripts, reset of timed-out streams, and the removal of clients at
  the end of a timed test, except for its effect on the final report.
- Rounding: rates and statistics are over the reals; the square root is any function that is one.
- JoinIsRfc: one direction only; `PathLevels.JoinIsRfcExactly` is exact for every input.
- NothingDroppedIsRfc: one direction only; `PathLevels.JoinIsRfcExactly` is exact for every input.
- JoinIsRfcIff: for inputs without ".."; `PathLevels.JoinIsRfcExactly` covers every input.
- MergeIsRfcIff: for inputs without ".."; `PathLevels.MergeIsRfcExactly` covers every input.
- NormalizedStaysNormal: one direction only; a ".." can remove a hidden triplet again. `DecodeTwiceIff` is exact.
- OneRedirectIff: for paths without ".."; `PathRedirects.OneRedirectExactly` covers every path.
- DecodeTo: a character is a number that is not negative; a negative `char` would be read outside of the
  decoding table.
- Alloc: requests whose size with its header does not fit a machine word are excluded; `RequestFitsIff` says that
  exactly these do not fit their block.
- NoRequestIsLost: for one connection per client, no reconnection and no exhausted session; `FailureBalancedIff`
  and `SwitchExactIff` say exactly what those cases break.
- WorkerOutcome: as for NoRequestIsLost, no reconnection, no exhausted session and no switched connection.
- Report: as for NoRequestIsLost, no reconnection, no exhausted session and no switched connection of any worker.
- MadeCounted: for counted runs; `RequestsLeft.AssertFailsIff` covers every mode.
- HandleConnectionError: the delay before a reconnection and a new connection requested by an HTTP/1.1 session are
  not modelled.
- MemoIsTransparent: needs rules that are told apart by their keys; `SecondRuleRightIff` is the exact condition
  for two rules.
- AnyRun: one connection; a completion of the previous connection's write that arrives after a reconnection is
  not modelled.
- NextScenario: every draw is allowed; the generator is not modelled, and `Shares.SharesAreDrawnIff` counts every
  possible draw once.
- SharesAreDrawnIff: for schedules that do not wrap; one that wraps can keep the shares or lose them
  (`WrappedKeepsShares`, `WrappedLosesScenario`), and `PickHasWeight` holds for all. There is no draw if the last
  weight is negative as an int.
- InitDistributionMap: the sum of 32-bit weights is unbounded; in 64 bits it cannot wrap for fewer than 2^32
  responses.
- ComputeTimeStat: the largest and the smallest positive number of the type are parameters.
- OnWrite: the stash must fit the buffer, as it does when every frame does (`FillMakesProgress`).
- SliceVarIds: with slicing on and more than one client; without slicing the cursor is drawn from the closed
  range, for which `NextInSlice` holds.
- RequestsDistinct: for templates of range variables; values from tables may repeat.
- SpawnWorkers: without a timing script.
- BodyIsDelivered: for string bodies; other body generators are application code.

# From datagram to gateway: a verified model of a UPnP client library

This project models the parts of an asynchronous C++ UPnP library that decide what is found on
the network: the text scanners, URLs as a buffer with views, the parser of SSDP answers, the
query that collects them concurrently, the wait list and the cancellation tree it rests on,
lookup in XML trees, device descriptions, and the discovery loop that turns answers into
internet gateway devices.

Check it with `dafny verify dfyconfig.toml` (Dafny 4.11).

## How it is organised

| file | models |
|---|---|
| `Scan.dfy` | `consume_until`, trimming, case-insensitive comparison |
| `Numbers.dfy` | `consume_number` in wrapping 64-bit arithmetic |
| `Urls.dfy`, `UrlLaws.dfy`, `UrlRoundTrips.dfy`, `UrlReparse.dfy` | `url_t`: the object with its addresses, parsing, printing, copying, moving, the in-place path edit, and their laws |
| `Endpoints.dfy` | `consume_endpoint` and the endpoint of a URL |
| `SsdpMessage.dfy` | `query::response::parse` |
| `WaitLists.dfy` | `ConditionVariable` |
| `SsdpQuery.dfy`, `SsdpQueryLaws.dfy`, `SsdpQueryWaits.dfy` | `query::state_t` as atomic steps between suspension points, its laws over every run, and its use of the wait list |
| `Cancellation.dfy` | `cancel_t` |
| `XmlTree.dfy`, `DeviceTree.dfy` | `get_child`, `device_parse` |
| `Discovery.dfy`, `DiscoveryResults.dfy`, `DiscoveryRuns.dfy` | `igd::discover`: its loops, its results said of the answers alone, and both on top of any run of the query |
| `Options.dfy`, `Executor.dfy` | the optional type; coroutine names and error codes |

Code that changes things step by step is a class or a method with the loops of the source. Each
such method is proved equal to a function of its inputs or of the old state, and the lemmas say
what that function means. A `Url` object holds absolute addresses, as the views of the source do;
nothing that is proved depends on where a buffer happens to live, so copies, moves and
reallocations that forget to carry a view along would not verify. Runs of the query, the wait
list and the cancellation tree are sequences of events; the lemmas about them hold for every
legal sequence, with any number of callers.

Main results, hardest first:

- **URLs.** Parsing the printed form of seven components gives them back if and only if they are
  `WellFormed`; printing a parsed text gives it back without exactly the delimiters that have
  nothing on their side. The in-place path edit changes the path text and no other and keeps the
  order of the views. Re-reading the buffer gives the seven edited texts if and only if
  `TextsFit`, and the edited object with its views if and only if `PathFits`.
- **Numbers.** The wrapping accumulator is exact on at most 61 digits for every bound up to
  2^32 - 1, because a decimal term at position *i* is a multiple of 2^i modulo 2^64; an 8 and 61
  zeros read as 0. For longer runs the failing family is described exactly.
- **The query.** In every reachable state of receiver, timer, `stop` and callers no caller is
  forgotten, popped and queued elements are the accepted ones of the datagrams heard, in order,
  the terminal error is sticky, shutdown is bounded by a measure, and at rest every call has
  returned. It is said exactly which calls are a bad access and which error follows `stop`. Every run of the
  query is a run of its wait list, in which each suspension is posted exactly once.
- **Cancellation.** Firing ends and runs the slot of each connection under the fired object
  exactly once, even when connections lead in circles; with slots that fire, connect or drop
  connections every connection is still exactly one of linked, waiting, run or dropped.
- **Discovery.** The gateways found are exactly those of the answers: a root, a WAN device, a
  connection and a service of one version, with a UDN that is new there. They come in order, each
  result goes to the endpoint its description came from. In any run of the query underneath, the
  answers are the accepted datagrams in order up to the first that did not parse.

## Where the code differs from its documentation or from what one may expect

- The header announces that parse errors reach the callers of `get_response`
  (include/upnp/ssdp.h:30-35 and 73-75), but `.value()` is called on whatever is popped
  (src/ssdp.cpp:153). The model follows the code: a call ends in `BadAccess` if and only if what
  it popped did not parse (`SsdpQueryLaws.BadAccessExactly`), a datagram does not parse if and
  only if it has a line end and no good status line before it (`SsdpMessage.FailsExactly`), and a
  single line feed is enough (`SsdpQueryLaws.LineEndIsABadAccess`).
- The discovery loop means to ignore responses that do not parse (src/igd.cpp:313-314). It does so
  if and only if there are none: unless an exchange fails it throws if and only if some datagram
  heard did not parse (`DiscoveryRuns.ThrowsExactly`).
- The timer callback ignores its error code, so after `stop` the recorded error is an abort if
  and only if a receive completes before the timer fires (`SsdpQueryLaws.ErrorAfterStop`).
- What looks like a port is one if and only if a '/' follows the first ':' after the user
  information, and the path view is unset if and only if neither ':' nor '/' stands there
  (`UrlLaws.ViewsSetExactly`). So "host:8080" has an empty port and the path "8080"
  (`UrlLaws.HostWithoutSlash`), and a plain host leaves the path view unset (`UrlLaws.PlainHost`).
- The UDN of a device is recorded before its type is looked at. A device that answers is returned
  if and only if no earlier one has its UDN and it has a gateway (`Discovery.ReturnedExactly`),
  so a device of another type hides every later WAN device with its UDN
  (`Discovery.OtherTypeHidesGateway`, `Discovery.HiddenGateway`).
- More than 61 digits can be misread (`Numbers.ExactlyWhenRight`, `Numbers.SixtyTwoDigitsCanFail`).

## Model

| member | source | states |
|---|---|---|
| Scan.ConsumeUntil | src/str/consume_until.h:10-33 | the loop finds a text if and only if the cut exists, returns the text before it, and leaves the input untouched otherwise |
| Scan.FirstTokenIsFirst | src/str/consume_until.h:18-27 | of several tokens that match at one place, the first of the list is taken |
| Scan.CutIsEarliestMatch | src/str/consume_until.h:17-32 | the cut is at the earliest position where any token matches, the input is exactly text, token and rest, and there is no cut if and only if no token matches anywhere |
| Scan.CutLine | src/ssdp.cpp:166-167 | reading a line with the tokens CR LF and LF is cutting at the first LF and dropping one CR before it |
| Scan.SchemeEndNoOverlap | src/url.cpp:18 | "://" cannot overlap itself: appending it creates no earlier occurrence |
| Scan.CutSchemeAt | src/url.cpp:18-20 | a scheme without "://" is found again in front of "://" |
| Scan.TrimSpacePrefix | src/str/trim.h:8-12 | the loop removes the leading white space |
| Scan.TrimSpaceSuffix | src/str/trim.h:15-19 | the loop removes the trailing white space |
| Scan.TrimSplits | src/str/trim.h:8-19 | what trimming removes at both ends is white space, and what it leaves neither starts nor ends with any |
| Scan.SpaceExact | src/str/trim.h:9 | white space is the blank and the characters 9 to 13 |
| Scan.IEqualsExact | src/ssdp.cpp:192-214 | two texts compare equal if and only if at each place they have the same character or the same Latin letter in two cases |
| Scan.IStartsWithExact | src/str/istarts_with.h:8-12 | a text starts with a prefix in that sense, and not if it is shorter |
| Numbers.CountDigits | src/str/consume_number.h:22-26 | the loop counts the maximal digit run |
| Numbers.ConsumeUnsigned | src/str/consume_number.h:20-45 | with 64-bit registers that wrap, result and remaining text are those of the accumulated value, refused as soon as it exceeds the type |
| Numbers.RegisterStep | src/str/consume_number.h:33-36 | after i digits the two registers hold 10^i and the value of the low i digits modulo 2^64 |
| Numbers.ConsumeSigned | src/str/consume_number.h:52-86 | sign, bound and restored text agree with the specification of the signed form |
| Numbers.ValueReadsLeftToRight | src/str/consume_number.h:30-41 | the positional value used as reference is the usual reading of decimal digits |
| Numbers.TermIsMultiple | src/str/consume_number.h:35-36 | below position 64 a term is a multiple of 2^i modulo 2^64, and zero if and only if digit and position make it divisible |
| Numbers.Gap | src/str/consume_number.h:33-41 | from position 19 on a term that does not vanish stays 2^32 away from zero modulo 2^64 |
| Numbers.DecimalIsRead | src/str/consume_number.h:20-45 | a number written in decimal is read as itself if it fits the type, and refused otherwise, whatever follows it |
| Numbers.AccumulatedIs | src/str/consume_number.h:30-44 | the result on every digit string, for every bound up to 2^32 - 1 |
| Numbers.ExactUpTo61Digits | src/str/consume_number.h:20-45 | up to 61 digits the result is the value if it fits and nothing otherwise, and the text advances or stays accordingly |
| Numbers.ExactlyWhenRight | src/str/consume_number.h:20-45 | for any length the result is right if and only if there is no nonzero digit beyond the 61st, or one of those does not vanish, or the low digits do not fit |
| Numbers.SixtyTwoDigitsCanFail | src/str/consume_number.h:33-41 | the bound of 61 digits is tight: an 8 and 61 zeros are read as 0 |
| Numbers.Unsigned64IsModular | src/str/consume_number.h:30-44 | the 64-bit form never refuses a digit run and returns the value modulo 2^64 |
| Numbers.SignedExact | src/str/consume_number.h:52-86 | for 8 to 64 bits the signed result is right if and only if the digits fit 64 bits or wrap to something out of range; a failure restores the text (with a leading '-' for 8 and 16 bits only) |
| Urls.Url.Parse | src/url.cpp:9-58 | every text is accepted, the buffer is the text, and the views are at the places of the pieces the text splits into |
| Urls.Url.Copy | include/upnp/url.h:14-24 | a copy has the same value wherever its own buffer lies |
| Urls.Url.MoveFrom | include/upnp/url.h:31-45 | a move carries the whole value over, wherever the buffer ends up |
| Urls.Url.ReplacePath | include/upnp/url.h:64-83 | the edit writes the new path through the view and leaves all views right, even if the buffer moves |
| Urls.Url.TransferAll | include/upnp/url.h:76-82 | all seven views follow the buffer, so the value is the one the views had in the old buffer |
| Urls.Url.Print | src/url.cpp:66-75 | the stream receives the recomposition of the seven texts, without the delimiters of empty ones |
| Urls.JoinSplit | src/url.cpp:9-58 | parsing loses no character: the pieces and their delimiters make up the text |
| UrlLaws.SplitJoinExact | src/url.cpp:9-58 | pieces are found again in the text made of them if and only if they are canonical |
| UrlLaws.TextsOfLayout | include/upnp/url.h:49-55 | every view stays inside the buffer and the accessors return exactly the pieces |
| UrlLaws.ViewsSetExactly | src/url.cpp:26-37 | the path view is unset if and only if neither ':' nor '/' follows the user information; the port view is set if and only if a '/' follows the first ':' there |
| UrlLaws.HostColonText | src/url.cpp:26-31 | host, ':' and digits without a slash: no port, and the digits are the path |
| UrlLaws.HostWithoutSlash | src/url.cpp:26-31 | the instance "host:8080" |
| UrlLaws.PlainHost | src/url.cpp:34-37 | a text without any delimiter leaves the port and the path view unset |
| UrlRoundTrips.PrintAfterParse | src/url.cpp:18-75 | the print of a parsed text is the text without exactly the delimiters of empty components, shorter by their lengths; it is the text itself if and only if there are none |
| UrlRoundTrips.ParseAfterPrint | src/url.cpp:9-75 | parsing the recomposition gives back the seven components if and only if they are well formed |
| UrlRoundTrips.ParseIsOrdered | src/url.cpp:9-58 | the views of a parsed URL follow each other through the buffer, separated by exactly their delimiters |
| UrlRoundTrips.EditRefinesRecordUpdate | include/upnp/url.h:64-83 | for a longer, shorter or empty path the edit is a record update on the seven texts and keeps the views ordered |
| UrlRoundTrips.EditIsLayout | include/upnp/url.h:64-83 | editing a laid-out URL gives the layout of the edited pieces, views included |
| UrlRoundTrips.EditReparsesExactly | include/upnp/url.h:64-83 | re-reading the edited buffer gives the edited object with the same views, set or unset, if and only if the new path fits between its neighbours |
| UrlReparse.EditReadsBackExactly | include/upnp/url.h:64-83 | re-reading the edited buffer gives the seven edited texts if and only if the new path fits, where a port without text needs no view and a path that is the whole rest may be empty |
| UrlReparse.WellFormedEditReadsBack | include/upnp/url.h:64-83 | it does so for every well-formed edited tuple whose empty components have no delimiter in the buffer |
| Endpoints.TakeEndpoint | src/str/consume_endpoint.h:12-37 | the text is advanced past the port on success and left or restored on failure |
| Endpoints.EndpointExact | src/str/consume_endpoint.h:16-36 | an endpoint is found if and only if the text is an address, its last ':' and a number of 16 bits |
| Endpoints.DecimalPort | src/str/consume_endpoint.h:16-36 | an address, ':' and a port in decimal are that endpoint if the port is at most 65535, and none otherwise |
| Endpoints.HostAndPortOfLayout | include/upnp/url.h:57-60 | the single view from host to port shows host, ':' and port, or the host alone if the port is empty |
| Endpoints.EndpointOfParsed | src/igd.cpp:396-397 | a parsed URL has no endpoint without a port text, and else the address and number on both sides of the last ':' of host and port, which are those of host and numeric port unless the port text holds a ':' itself |
| Endpoints.AcceptedLocationHasPath | src/igd.cpp:396-399 | a location whose endpoint is accepted has a port and a path view that starts with '/' |
| Endpoints.EditKeepsEndpoint | src/igd.cpp:244-247 | editing the path never changes the endpoint a request goes to |
| SsdpMessage.ParseResponse | src/ssdp.cpp:156-221 | the two nested loops compute the parse, including the kinds of error and the text they carry |
| SsdpMessage.ReadUuid | src/ssdp.cpp:196-205 | the loop over the tokens of a USN finds the text of its last "uuid:" token |
| SsdpMessage.FailsExactly | src/ssdp.cpp:166-181 | a datagram fails to parse if and only if it has a line end and its first line is not "http..." in any case, a word, white space and "200" with a blank after it; the error says whether the line starts with "http" and carries what follows it; without a line end the response is empty |
| SsdpMessage.OrdinaryStatus | src/ssdp.cpp:169-181 | "HTTP/1.1 200 OK" is a good status line |
| SsdpMessage.UnterminatedTextIsIgnored | src/ssdp.cpp:166-218 | appending text without a line feed changes neither the response nor the kind of error |
| SsdpMessage.ParseOfRender | src/ssdp.cpp:166-220 | a good status line and any headers are read back by name, the last one of a name, whatever the case of the names and the white space around the values, up to a line without a colon, behind which nothing counts |
| SsdpMessage.OrdinaryAnswer | src/ssdp.cpp:166-220 | the instance of an answer with the headers "Location" and "usn" |
| SsdpMessage.HeaderOrderIsIrrelevant | src/ssdp.cpp:183-217 | permuting the headers changes nothing |
| SsdpMessage.UuidOfUsn | src/ssdp.cpp:196-205 | every u without a colon is recovered from "uuid:" + u + "::" + v, the token in any case, if and only if v holds no further such token |
| SsdpMessage.UuidWithoutEnd | src/ssdp.cpp:201-203 | without "::" the rest of the USN is the uuid, unless a further token follows in it |
| WaitLists.ConditionVariable.NotifyAll | src/condition_variable.h:62-69 | the draining loop posts every linked waiter, in order, and leaves none linked |
| WaitLists.ConditionVariable.BeginWait | src/condition_variable.h:72-80 | a wait is linked last |
| WaitLists.ConditionVariable.CancelSlot | src/condition_variable.h:82-89 | a cancellation unlinks the entry, if linked, and posts it as aborted |
| WaitLists.ConditionVariable.Close | src/condition_variable.h:56-59 | destruction posts every linked waiter as aborted |
| WaitLists.PostedOnceIffAsserted | src/condition_variable.h:82-89 | over any run no handler is posted twice if and only if the assertion in the slot never fails |
| WaitLists.ExactlyOnce | src/condition_variable.h:56-92 | a waiter is posted exactly once unless it is still linked, and none is linked after destruction |
| WaitLists.ExactlyOnceWithDummyCancel | src/condition_variable.h:95-99 | with a cancellation nobody fires this holds without any side condition |
| WaitLists.PostedWithItsCode | src/condition_variable.h:56-92 | a waiter is posted with the code of the first event after its wait that releases it: the notifier's code, or an abort by its cancellation or the destructor; it is linked while there is none |
| WaitLists.FirstComeFirstNotified | src/condition_variable.h:62-80 | notified waiters, then linked ones, are the waiters not cancelled in the order of their waits |
| SsdpQuery.Query.Begin | src/ssdp.cpp:97-111 | the receiver starts with the timer armed |
| SsdpQuery.Query.FireTimer | src/ssdp.cpp:99-104 | the timer records a time-out unless an error is recorded, closes the socket and notifies nobody |
| SsdpQuery.Query.CompleteReceive | src/ssdp.cpp:113-128 | a completed receive ends the receiver, skips a duplicate silently, or queues the parsed datagram and posts all callers |
| SsdpQuery.Query.StopAll | src/ssdp.cpp:223-228 | stop sets the flag and closes the socket, and notifies nobody |
| SsdpQuery.Query.GetResponse | src/ssdp.cpp:135-154 | a call is refused after stop, or pops, returns the terminal error or suspends |
| SsdpQuery.Query.ResumeCaller | src/ssdp.cpp:145-153 | a resumed caller may find the queue empty and wait again |
| SsdpQuery.InvRun | src/ssdp.cpp:97-154 | the joint invariant of receiver, timer, queue and callers holds in every reachable state |
| SsdpQueryLaws.NoCallerIsForgotten | src/ssdp.cpp:97-149 | a linked caller means an empty queue and a receiver that has yet to exit; after its exit the error is set and nobody begins to wait |
| SsdpQueryLaws.ReceivedIsHeard | src/ssdp.cpp:106-117 | the loop looks at exactly the datagrams received before the timer, a receive error or stop, in order |
| SsdpQueryLaws.QueueConserves | src/ssdp.cpp:106-127 | popped then queued elements are the accepted ones of these datagrams, in order: every parse error and the first response of each USN; the recorded USNs are theirs |
| SsdpQueryLaws.AcceptedUsnsDiffer | src/ssdp.cpp:121-124 | no two accepted responses share a USN |
| SsdpQueryLaws.ReturnedIsPopped | src/ssdp.cpp:151-153 | over any run a call that returns a response popped that very response, and a bad access the error popped; what was popped ended the call that popped it so |
| SsdpQueryLaws.EachElementToOneCaller | src/ssdp.cpp:151-153 | a call that does not end in an error code popped exactly one element, and no element went to two calls |
| SsdpQueryLaws.TerminalErrorIsSticky | src/ssdp.cpp:100-117 | the recorded error never changes and nothing is queued after it |
| SsdpQueryLaws.NothingLostWithoutStop | src/ssdp.cpp:141-149 | without stop a call ends in an error code only when every accepted element was popped, and every later call ends in the same code |
| SsdpQueryLaws.TerminalErrorExactly | src/ssdp.cpp:99-117 | the error of every run: a time-out if the timer fires first, the code of a receive error if that comes first, an abort if a receive completes first after stop |
| SsdpQueryLaws.CallAfterStop | src/ssdp.cpp:141-143 | after stop every call ends at once in an abort and takes nothing from the queue |
| SsdpQueryLaws.ErrorAfterStop | src/ssdp.cpp:99-117 | after stop the recorded error is an abort if a receive completes first, a time-out if the timer fires first, and none if neither happened |
| SsdpQueryLaws.BothErrorsFollowStop | src/ssdp.cpp:99-117 | two runs that end in the two codes |
| SsdpQueryLaws.BadAccessExactly | src/ssdp.cpp:145-153 | over any run a call ends in a bad access if and only if the element it popped, at once or after waiting, did not parse |
| SsdpQueryLaws.NoBadAccessExactly | src/ssdp.cpp:106-153 | over any run no call is a bad access if and only if the accepted datagrams popped so far parsed, and, with an empty queue, if and only if every datagram heard did |
| SsdpQueryLaws.ParseErrorReachesNoCaller | include/upnp/ssdp.h:30-35 | for every datagram, a caller that waits for it gets a bad access instead of the announced parse error if and only if its first line is no good status line |
| SsdpQueryLaws.LineEndIsABadAccess | include/upnp/ssdp.h:30-35 | the instance of a single line feed |
| SsdpQueryLaws.InternalStepDecreases | src/ssdp.cpp:99-153 | once shutting down, every internal step lowers the measure, even a resumption that waits again |
| SsdpQueryLaws.ShutdownIsBounded | src/ssdp.cpp:99-153 | the number of steps still possible is at most the measure |
| SsdpQueryLaws.AtRestEveryCallHasReturned | src/ssdp.cpp:97-153 | where nothing is bound to happen the receiver has exited and every call ever made has returned; elsewhere some step is enabled |
| SsdpQueryWaits.QueryRunsItsWaitList | src/ssdp.cpp:126-148 | every run of the query is a legal run of its condition variable without cancellations, in which linked and posted entries are the suspended and posted callers |
| SsdpQueryWaits.EverySuspensionIsPostedOnce | src/ssdp.cpp:126-148 | each suspension of a caller is posted exactly once unless still linked, and exactly once after the receiver has exited |
| Cancellation.CancelTree.Call | include/upnp/detail/cancel.h:82-95 | firing detaches the connections, counts, and runs their slots in order, which may fire children; it terminates |
| Cancellation.CancelTree.Connect | include/upnp/detail/cancel.h:101-107 | a connection is linked last |
| Cancellation.CascadeFiresExactlyOnce | include/upnp/detail/cancel.h:52-95 | the slots that run are those of the least set closed under "fires a child", each once; they are unlinked and all others stay linked |
| Cancellation.FireCounts | include/upnp/detail/cancel.h:82-99 | a call count grows by one for being fired and one for each slot that fired the object |
| Cancellation.FireIsARun | include/upnp/detail/cancel.h:82-95 | firing, as the calls do it, is a run of single events from any configuration, in which the same slots run in the same order |
| Cancellation.NoSlotRunsTwice | include/upnp/detail/cancel.h:82-107 | over any run with slots that fire, connect and drop, no slot runs twice |
| Cancellation.EveryConnectionIsAccountedFor | include/upnp/detail/cancel.h:82-107 | over any run every connection made is exactly one of linked, waiting to run, run or dropped, and none waits when no firing is under way |
| XmlTree.FindFirst | src/xml.cpp:59-75 | the first child that matches the segment, by its local name if the segment starts with "*:" |
| XmlTree.LookUp | src/xml.cpp:35-79 | the loop returns the subtree at the position the walk reaches |
| XmlTree.WalkReachesChild | src/xml.cpp:48-78 | the subtree returned is the one at the position walked to |
| XmlTree.JoinLaw | src/xml.cpp:49-53 | looking up p + "." + q is looking up p and then q, for every tree and q, if and only if p is neither empty nor ends in '.' |
| XmlTree.WildcardSelects | src/xml.cpp:59-67 | "*:x" selects the first child named x without a prefix or behind one, and none if and only if there is no such child |
| XmlTree.PlainSelects | src/xml.cpp:69-74 | any other segment selects the first child with this very name |
| XmlTree.WithoutWildcardsIsExact | src/xml.cpp:30-79 | without "*:" segments the lookup is the plain one of the tree library |
| XmlTree.WildcardsIgnorePrefixes | src/xml.cpp:30-79 | a path of "*:" segments reaches the same position in trees that differ only in prefixes |
| DeviceTree.ServiceExact | src/parse_device.cpp:5-23 | a tree is a service if and only if it has the three children, and its texts are those of the first such children |
| DeviceTree.DeviceExact | src/parse_device.cpp:38-74 | a tree is a device if and only if it has the three children, with or without lists; its texts are those of the first such children and its lists those of the first list children, or empty |
| DeviceTree.ServicesConcatenate | src/parse_device.cpp:55-61 | the services of a list are those of its parts, in order |
| DeviceTree.DevicesConcatenate | src/parse_device.cpp:65-71 | the devices of a list are those of its parts, in order |
| DeviceTree.SingleEntry | src/parse_device.cpp:56-70 | and of a single entry, the service or device that it is, whatever its name |
| DeviceTree.ReadService | src/parse_device.cpp:5-23 | an entry is a service if and only if its three texts are there |
| DeviceTree.ReadDevice | src/parse_device.cpp:38-74 | the recursive parser, with its optional lists |
| DeviceTree.ReadDevices | src/parse_device.cpp:65-71 | the list loop keeps the parsed entries in order |
| DeviceTree.DeviceRoundTrip | src/parse_device.cpp:5-74 | the parse of a rendered device is the device, at every depth |
| DeviceTree.CompactRoundTrip | src/parse_device.cpp:5-74 | so is that of a rendering that leaves empty lists out |
| DeviceTree.RootRoundTrip | src/parse_device.cpp:31-36 | the same for a whole document |
| DeviceTree.OtherChildrenAreIgnored | src/parse_device.cpp:41-63 | a child of any other name makes no difference, wherever it stands |
| DeviceTree.BadEntriesAreSkipped | src/parse_device.cpp:66-70 | an entry that is no device is skipped and the others keep their order |
| DeviceTree.TextOfIsExactLookup | src/parse_device.cpp:41-49 | for names without dots the lookup used is the path lookup of the tree library |
| Discovery.Collect | src/igd.cpp:310-373 | the loop over answers with its three nested loops collects the gateways of all occurrences whose UDN is new, or stops at the first description that cannot be fetched |
| Discovery.Discover | src/igd.cpp:297-376 | the call returns the declared result, the error code that ends the calls, or the exception of a popped parse error |
| Discovery.AddItem | src/igd.cpp:312-340 | one turn of the loop: a parse error is skipped, an answer that cannot be fetched ends it, and the others add the expected results |
| Discovery.AddDevice | src/igd.cpp:347-351 | the UDN is recorded first and the type looked at afterwards |
| Discovery.AddServices | src/igd.cpp:356-370 | each matching service gives one gateway whose URL is an edited copy of the location |
| Discovery.ParsedResponsesAreLocated | src/ssdp.cpp:156-221 | the location of every parsed response is the default URL or a parsed one |
| Discovery.ReturnedResponsesAreLocated | src/ssdp.cpp:106-153 | so is that of every response a query returns in any run |
| Discovery.RootDevice | src/igd.cpp:385-399 | if a description could be fetched, the location's path can be replaced |
| Discovery.MatchesExact | src/igd.cpp:351-370 | an occurrence of a device yields exactly the gateways of its matching connections and services |
| Discovery.SourcesAreFresh | src/igd.cpp:347-373 | results come in the order of occurrences whose UDN is new there |
| Discovery.FreshIsReturned | src/igd.cpp:347-373 | an occurrence whose UDN is new gives all its gateways, in one stretch of the result |
| Discovery.ReturnedExactly | src/igd.cpp:347-373 | an occurrence is a source of results if and only if no earlier one has its UDN and it has a gateway |
| Discovery.UdnReturnedExactly | src/igd.cpp:348-373 | a UDN is among the results if and only if the first device that answers with it has a gateway |
| Discovery.SucceedsExactly | src/igd.cpp:310-375 | discovery succeeds if and only if all descriptions are fetched, the calls end in a time-out, and some device with a gateway is the first with its UDN |
| Discovery.SameUdnSameOccurrence | src/igd.cpp:348-349 | two results with one UDN come from the same occurrence of the device |
| Discovery.KnownUdnsAddNothing | src/igd.cpp:348-349 | occurrences with only known UDNs add no result |
| Discovery.OtherTypeHidesGateway | src/igd.cpp:348-351 | a device of another type, at any position, hides every later occurrence with its UDN, and if it is the first no result has that UDN |
| Discovery.HiddenGateway | src/igd.cpp:348-351 | a gateway that is found alone is not found behind a basic device with its UDN |
| Discovery.DiscoveryMeaning | src/igd.cpp:310-375 | success is a nonempty result after a time-out; each gateway's URL differs from its location in the path only and leads to the same, accepted endpoint |
| DiscoveryResults.VersionExact | src/igd.cpp:333-340 | the version is "1" or "2", the end of the type of an internet gateway root device; any other root has none |
| DiscoveryResults.FetchedExactly | src/igd.cpp:396-429 | a description is fetched if and only if the location names an endpoint and the exchange succeeds |
| DiscoveryResults.ResultsExactly | src/igd.cpp:327-372 | on the answers alone: a gateway is collected if and only if some description has a root of version 1 or 2 and below it a WAN device, a connection and a service of the types that end in the same version, of a UDN that no earlier device of such a description has |
| DiscoveryResults.SuccessExactly | src/igd.cpp:310-375 | discovery succeeds if and only if every answer could be reached, the calls ended in a time-out and there is such a gateway; it returns exactly these |
| DiscoveryResults.FailureExactly | src/igd.cpp:311-328 | it fails with an I/O error if an answer cannot be reached, else with the exception of a bad access, else with the code of the calls |
| DiscoveryResults.ServiceMatchesConcatenate | src/igd.cpp:356-370 | within a connection the gateways come service by service, in order |
| DiscoveryResults.SingleService | src/igd.cpp:357-369 | one service gives one gateway if its type is one of the two, with the fields in their places, and none otherwise |
| DiscoveryResults.ConnectionMatchesConcatenate | src/igd.cpp:353-371 | within a device they come connection by connection |
| DiscoveryResults.SingleConnection | src/igd.cpp:354 | a connection of another type gives none |
| DiscoveryRuns.CallsReturnAccepted | src/ssdp.cpp:134-154 | of calls made one after the other without stop, the k-th returns the very response that the k-th accepted datagram is, or a bad access with its error, or the terminal error if there are no more |
| DiscoveryRuns.LastCall | src/igd.cpp:310-324 | the calls of the discovery loop end in a bad access if some datagram heard did not parse, at the first that did not, and otherwise in the terminal error after all accepted ones |
| DiscoveryRuns.DiscoveryOfRun | src/igd.cpp:310-325 | in every run of the query the items discovery gets from its calls are the accepted datagrams in order, with locations whose paths can be replaced, and its ending is the one just said |
| DiscoveryRuns.ThrowsExactly | src/igd.cpp:312-324 | unless an exchange fails, discovery throws if and only if some datagram heard did not parse |
| DiscoveryRuns.OneAnswerRun | src/igd.cpp:310-324 | such runs exist: one datagram that parses, then the time-out |

## Left out

- Sockets, multicast options, TCP and HTTP exchanges and SOAP transport: a receive, and the exchange that fetches a description, are events with an arbitrary outcome.
- The bodies of SOAP requests, the printers of errors and the decoding of port mapping entries: fixed texts and simple filters.
- The libraries underneath: the XML text parser is not modelled (trees are given), the address parser is an arbitrary partial function, coroutines are atomic steps between suspension points, posting is adding to a set of ready handlers that may run in any order.
- Real time: an armed timer is a step that may happen once.
- The failure of `start` before the receive loop runs (socket options, bind, sending the search): there is then no query.
- Memory lifetime: the local captured by reference in the receive coroutine, views of a moved-from `url_t`, and a slot that destroys its own connection while it runs.
- Urls.Rebase: an unset view stays unset; the source moves a null pointer along, whose view is empty too but cannot be written through.
- Urls.Url.ReplacePath: the new path is a text of its own, so one that is a view into the same buffer is not covered; its requires (a set path view inside the buffer) is the one the source relies on, and `Endpoints.AcceptedLocationHasPath` shows that discovery meets it.
- Urls.Url.Of: a copy of a `url_t` that is part of a value, where the model keeps the value instead of the object.
- Conformance of URL parsing to section 3 of RFC 3986, which the source does not aim at: "host?query" without a slash is all host.
- Numbers.SignedExact: not for a leading '-' with signed types of 32 and 64 bits, where the source negates the smallest value, which overflows.
- The error `location_url` of the response parser, which cannot arise because `url_t::parse` accepts every text.
- SsdpQuery.Query.GetResponse: one bad access is an outcome of its call and the other callers go on, as when the exception of a release build is caught above it; a debug build ends the process.
- Calls through a `query` object after its `stop`, which drops the shared state: `stop` here is that of the state, and calls after it are those already holding the state.
- Discovery.Discover: a popped parse error ends the loop as an exception; that a debug build ends the process instead is not modelled. The branch that skips parse errors is kept, although `get_response` never returns one.
- Cancellation.CancelTree.Call: objects are nodes of one arena, exceptions thrown by slots are left out, and so are move construction and assignment of `cancel_t` and `Connection`, which rest on details of the intrusive list.
- The work guard of `ConditionVariable::wait` and the executor behind it.
- Characters are compared in the "C" locale.
- The example program and the build files.

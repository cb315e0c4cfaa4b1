# A verified model of the DNS stack

SNIBypassGUI runs a local DNS resolver and an encrypting DNS forwarder on Windows, with hand-written
wire parsers and small concurrent protocols between their threads. This project models that code in
Dafny and proves what its comments, and the standards it implements, promise of it.

- **Messages** (`NameWalk`, `NameCodec`, `PointerNames`, `LabelNames`, `CaseFolding`, `Records`,
  `WireBoundaries`, `UdpBudget`, `Truncation`, `TruncatedWalk`, `Delivery`, `OptRecords`,
  `RecordWalks`): compressed names (section 4.1.4 of RFC 1035), record walking, and cutting a
  response to a UDP client's size (section 6.2.3 of RFC 6891) while three section counts are
  rewritten.
- **HTTP responses** (`HttpText`, `HttpHead`, `HttpAccept`, `HttpFields`, `HttpCore`, `HttpParser`,
  `HttpSplit`, `HttpSplitExample`, `HttpEncode`, `HttpGrammar`): an incremental parser with
  resumable scans (sections 6.3 and 7.1 of RFC 9112). `HttpCore` states the machine as steps over
  all bytes, and the class in `HttpParser` is proved to do what the steps do.
- **The forwarder** (`Racing`, `RacingSafety`, `RacingAnswers`, `RacingFailure`, `RacingCount`,
  `RacingTimes`, `Intake`, `SessionSafety`, `SessionOrder`, `Eviction`, `ForwarderLoop`): one query
  raced over several upstreams by a loop thread and any number of workers, as interleaved steps; the
  class in `ForwarderLoop` does with loops what the steps say.
- **The certificate cache** (`CertCache`, `CertSafety`, `CertHits`, `CertBackoff`): single-flight
  fetches, waiters and exponential backoff, split at the regions the source runs under a lock.
- **Sockets with two closers** (`SocketOwnership`, `SocketSafety`, `SocketLaws`), **message framing
  on TCP** (`TcpStream`), **redirect rules and local answers** (`Rules`, `RuleFile`, `LocalAnswer`),
  **the policy rule's guardian** (`RepairBudget`, `Redirection`, `RedirectionSteps`), **supervisors
  of the service stack** (`Supervision`, `SupervisionSteps`), **glob matching** (`Glob`, `GlobPath`,
  `GlobAllowed`, `GlobMeaning`) and **process trees** (`ProcessTree`).

Concurrency is a state, a datatype of events, and a predicate that says when each is enabled; one
event is one region the source runs without interference, and theorems are about every run.
Fields such as a race's `heard`, a cache's `log` or a socket's serial number record history: no step's
outcome depends on them.

Where code and comments differ the code is what is modelled, and the difference is a theorem:

- The offset reported for labels followed by a pointer lies inside the labels
  (`NameWalk.ReportedEndIsWireEnd`), and backward pointers alone do not rule out a cycle.
- A response that repeats the question never loses it, even with QDCOUNT 0; one that does not can
  (`Truncation.QuestionIsCutIff`).
- A reply keeps the query's QDCOUNT though it copies one question
  (`LocalAnswer.StatusReplyIsConsistentIff`).
- Splitting an HTTP response differently changes the outcome exactly when a line too long to wait for
  is finished in one piece (`HttpSplit.AllSplitsAgreeIff`).
- A client can be told that its lookup failed although an upstream had answered
  (`RacingFailure.FailureIsWrongIff`), at its deadline too (`RacingFailure.DeadlineFailureIsWrongIff`).
- A truncated response can announce a record whose name was cut off
  (`TruncatedWalk.CutIsConsistentIff`, `TruncatedWalk.TruncationCanBreakNames`).
- Near the 32-bit wrap a cooldown is not honoured (`CertBackoff.CooldownHoldsIff`).
- A broken TCP stream can start over after an overflow (`TcpStream.BrokenRecoversIff`), and the encoder
  returns nothing for an empty message too, not only for one that is too long.
- A Start whose policy rule the registry refuses does not roll back: it still holds the table lock that
  rolling back takes, a plain mutex, which the C++ standard leaves undefined. The thread waits for
  itself, or an exception leaves it that nothing on the way catches; either way Start does not return
  (`Redirection.StartReturnsIff`), and the stack stays up in part with its mutex held
  (`Supervision.OperationsEndIff`, `Supervision.StrandedForGood`).
- Making room for a new TCP client can drop one whose answer is queued and not yet sent
  (`SessionSafety.EvictionLosesAnAnswerIff`, `Eviction.EvictionCanLoseAnAnswer`).
- Stop ignores whether the rule could be removed, and can return with it in place
  (`Redirection.LeftBehindIff`, `Redirection.StopCanLeaveTheRule`).
- `CancelToken::Register` closes the socket of a cancelled token itself; its header says the caller
  must.

## Model

| member | source | states |
|---|---|---|
| `NameWalk.WalkName` | `src/dns/message.cpp:72-120` | The hop cap is exact: a walk that collects no text succeeds if and only if the uncapped walk reaches a root label in bounds, whatever the pointers do; with text, if and only if moreover the name has at most 253 characters. The text is the dotted lowercase name; a failed walk changes no output string. |
| `NameWalk.HopsBelowLength` | `src/dns/message.cpp:79-84` | A walk that reaches its root takes fewer hops than the message has bytes, since no position is visited twice. |
| `NameWalk.ReportedEndIsWireEnd` | `src/dns/message.cpp:85-106` | The offset reported is one past the name on the wire exactly for names that are labels only or begin with a pointer; for labels followed by a pointer it lies inside the labels. |
| `NameWalk.BackwardPointersCanCycle` | `src/dns/message.cpp:97-101` | A pointer that only goes backwards can still be part of a cycle: no number of hops reaches a root in this four-byte message. |
| `PointerNames.HasNameIff` | `src/dns/message.cpp:79-112` | A name begins at a zero byte, at a label of 1 to 63 bytes with a name behind it, or, where pointers are followed, at two bytes whose 14 low bits point before them to a name; and nowhere else. |
| `PointerNames.PointerNamesItsTarget` | `src/dns/message.cpp:92-101` | A pointer, by the 14 bits of its two bytes, stands for the name encoded at that offset, wherever the two lie in the message. |
| `PointerNames.LabelsThenPointer` | `src/dns/message.cpp:85-106` | Labels followed by a pointer stand for those labels and the name pointed to. |
| `Records.SkipName` | `src/dns/message.cpp:124-127` | Skipping succeeds exactly where a name can be walked, and reports where the walk says it ends. |
| `NameCodec.EncodeName` | `src/dns/message.cpp:129-168` | Succeeds exactly on the root and on names of labels of 1 to 63 bytes that encode to at most 255; appends that encoding, and otherwise leaves the output as it was. |
| `NameCodec.ParseQuery` | `src/dns/message.cpp:170-190` | Succeeds exactly on a header with a question whose uncompressed name, of at most 253 characters, and fixed fields fit; a failure can have filled in id and flags only. |
| `NameCodec.EncodedNameParses` | `src/dns/message.cpp:129-190` | Round trip: a question built from an encodable name parses back to that name in lower case, its type and class, and its exact end, whatever follows. |
| `NameCodec.EncodedQuestion` | `src/dns/message.cpp:170-190` | The same for any message that holds the encoding at offset 12. |
| `LabelNames.EncodableIff` | `src/dns/message.cpp:129-168` | A text can be encoded if and only if it is the root, or labels of 1 to 63 bytes with dots between them, of at most 253 characters. |
| `LabelNames.EncodingIsWire` | `src/dns/message.cpp:129-168` | What is written for such a text is each label behind its length, and a zero byte. |
| `CaseFolding.LowerAt` | `src/dns/message.cpp:106-118` | Byte by byte: a capital letter becomes its small one, and everything else stays. |
| `Records.WalkRecords` | `src/dns/message.cpp:192-223` | For any callback, the walk does what visiting the records one after another does: same context, same result, stopped by the callback or by the first record that does not fit. |
| `RecordWalks.SucceedsIff` | `src/dns/message.cpp:192-223` | With a callback that never stops it, a walk succeeds exactly if the header is whole and every record it announces fits. |
| `RecordWalks.ShowsTheRecords` | `src/dns/message.cpp:192-223` | It shows its callback the records one after another, each from the end of the one before it, the first from the end of the questions. |
| `Delivery.QueryUdpPayloadSize` | `src/dns/message.cpp:225-260` | The payload size in the first OPT record behind the questions if the message is a query that can be walked that far and the OPT is empty, and never less than 512. |
| `OptRecords.OptIsRead` | `src/dns/message.cpp:243-252` | By the bytes of the record: the first OPT gives the size in its class field if its data is empty, and none if not. |
| `OptRecords.OthersArePassed` | `src/dns/message.cpp:240-256` | Any other record is passed over whole. |
| `OptRecords.SizeIsHonoured` | `src/dns/message.cpp:225-260` | A query with one question and an empty OPT behind it gets the size it asks for, between 512 and 1232. |
| `OptRecords.NothingAskedFor` | `src/dns/message.cpp:225-260` | A response, or a query without additional records, gets 512. |
| `UdpBudget.Shares` | `src/dns/message.cpp:286-312` | The three section counts of the first k records add up to k. |
| `UdpBudget.KeepVisit` | `src/dns/message.cpp:267-284` | The first walk ends with the last record end within the budget, which is that of the last record of a prefix. |
| `UdpBudget.TallyVisit` | `src/dns/message.cpp:286-312` | The second walk counts, section by section, the records that end within what is kept. |
| `UdpBudget.SecondWalkAgrees` | `src/dns/message.cpp:267-310` | The second, separate walk finds the same survivors as the first. |
| `UdpBudget.ApplyUdpBudget` | `src/dns/message.cpp:314-371` | Exact verdict for every query, response and budget; the response is untouched unless it is truncated, and then it is the kept prefix with TC set and the three counts replaced by the survivors of each section. |
| `Truncation.QuestionIsKept` | `src/dns/message.cpp:314-371` | When the response repeats the question it is never cut, whatever QDCOUNT says. |
| `Truncation.QuestionIsCutIff` | `src/dns/message.cpp:272-284` | Otherwise the question is cut exactly when some record boundary lies before its end and none between its end and the budget. |
| `Truncation.QuestionCanBeCut` | `src/dns/message.cpp:272-284` | And that happens: a query and a 600-byte response that does not repeat its question, cut to 512 bytes at 23, before the question ends at 26. |
| `Truncation.CutIsLongest` | `src/dns/message.cpp:340-370` | A truncated response is the longest prefix within the budget that ends at a record boundary the walker reaches, or right after the question. |
| `Truncation.CountsAreSurvivors` | `src/dns/message.cpp:340-370` | A record of the whole response lies within the cut exactly when it is among those its section's new count announces. |
| `Truncation.CutTouchesHeaderOnly` | `src/dns/message.cpp:355-370` | Only byte 2, and of it only TC, which is set, and bytes 6 to 11 change. |
| `Truncation.Rewalk` | `src/dns/message.cpp:192-223` | A message that agrees with another on bytes 12 and up, and whose names stay below the cut, walks to the same record ends. |
| `Truncation.TruncatedWalksThrough` | `src/dns/message.cpp:314-371` | If the surviving names stay inside the part kept, walking the result again passes exactly the surviving records, as many as the counts announce, and ends at its last byte. |
| `TruncatedWalk.NameSurvivesIff` | `src/dns/message.cpp:85-106` | A name whose walk keeps clear of the header can be walked in a shorter message with the same bytes if and only if its walk stays inside that message. |
| `TruncatedWalk.CutIsConsistentIff` | `src/dns/message.cpp:314-371` | For names clear of the header, a truncated response with records left is exactly what it announces if and only if the surviving names stay inside the part kept. |
| `TruncatedWalk.UsualAnswersStayConsistent` | `src/dns/message.cpp:314-371` | So it is whenever one question is repeated and each surviving name is labels or points at such a name in the part kept. |
| `TruncatedWalk.TruncationCanBreakNames` | `src/dns/message.cpp:314-371` | And it need not be: a consistent 600-byte response that repeats its question is truncated to 512 bytes, and its one survivor can no longer be walked. |
| `WireBoundaries.MixedNameIsAccepted` | `src/dns/message.cpp:85-106` | An accepted name of labels followed by a pointer, reported to end at 3 where the standard ends it at 5. |
| `WireBoundaries.QuestionOnWireIff` | `src/dns/message.cpp:201-206` | A question the walker accepts ends where the standard puts its end exactly if its name is not labels followed by a pointer. |
| `WireBoundaries.FieldsOnWireIff` | `src/dns/message.cpp:208-219` | A record's fixed fields are read where the standard puts them exactly if its name is not labels followed by a pointer. |
| `WireBoundaries.BoundariesOnWire` | `src/dns/message.cpp:192-223` | Where no question or record name is of that kind, all record boundaries are those of the standard. |
| `WireBoundaries.MisreadFieldsCanAgree` | `src/dns/message.cpp:208-219` | Where one is, the record's end can still come out right by accident, so the boundaries alone decide nothing the other way. |
| `Truncation.QuestionOnlyIsConsistentIff` | `src/dns/message.cpp:314-371` | With no survivor the result is exactly what it announces if and only if QDCOUNT is 1. |
| `Truncation.SecondCutFits` | `src/dns/message.cpp:314-371` | A second cut finds that the message fits if and only if the first kept the question, which it does whenever the response repeats it. |
| `LocalAnswer.BuildResponseHeader` | `src/dns/message.cpp:373-386` | Header and question of the query with the reply flags and zero record counts, or nothing if the question does not lie inside. |
| `LocalAnswer.StatusReplyIsConsistentIff` | `src/dns/message.cpp:373-391` | A reply without records is exactly what it announces if and only if the query asked one question, because the query's QDCOUNT is kept. |
| `LocalAnswer.BuildResponse` | `src/dns/answer.cpp:30-70` | The reply per action and rule: the address if the rule has the family asked for, no data, or a name error; nothing when forwarding. |
| `LocalAnswer.AddressReplyIsConsistent` | `src/dns/answer.cpp:54-70` | With one question asked, an address reply re-walks to exactly one answer, through its pointer back to the question, and ends there. |
| `LocalAnswer.TryAnswer` | `src/dns/resolver.cpp:334-353` | A query is answered if and only if it is a standard query of class IN for a covered name whose type the first covering rule owns; every reply carries its id, and with one question asked re-walks to exactly its announced records. |
| `LocalAnswer.ResponseSays` | `src/dns/answer.cpp:30-70` | Byte by byte, for the rule that decides: type 1 with an IPv4 address gets that address, type 28 with an IPv6 one gets that, each with its type, class 1, the time to live and its length; a blocked name code 3 and no record, and everything else code 0 and no record. |
| `LocalAnswer.OursIff` | `src/dns/resolver.cpp:334-353` | Ours are the standard queries of class 1 for a name whose first covering rule blocks it, or redirects it and the type is 1, 28, 64 or 65. |
| `Rules.NormalizeDomain` | `src/dns/rules.cpp:49-54` | Lowercases and strips the dots at both ends and nothing else. |
| `Rules.OnlyDotsGo` | `src/dns/rules.cpp:49-54` | Of the lowercased domain only dots are dropped, in front and behind. |
| `Rules.ParseDomains` | `src/dns/rules.cpp:125-146` | The domains a line's tokens name, in order, stray prefixes left out; nothing if any token is an exclusion or none names a domain. |
| `Rules.LoadRules` | `src/dns/rules.cpp:176-226` | The rules of every line, in the order of the file, each line being given as its action, addresses and tokens. |
| `Rules.LoadedRules` | `src/dns/rules.cpp:176-226` | There is a rule for exactly the domains of the lines that are not rejected, and every rule's domain has no dot at either end. |
| `RuleFile.TokenCovers` | `src/dns/rules.cpp:125-143` | Behind a dot a token covers its domain and everything below it; without one, its domain alone. |
| `RuleFile.EmptyIsNotCovered` | `src/dns/rules.cpp:56-69` | An empty domain covers nothing, and the root is not covered. |
| `RuleFile.FirstLineWins` | `src/dns/rules.cpp:157-226` | The first line that covers a name decides: the first rule to cover it carries that line's action and addresses. |
| `Rules.SuffixCoversSubtree` | `src/dns/rules.cpp:56-65` | A suffix rule matches the apex and exactly the names with something and a dot in front of it. |
| `Rules.Match` | `src/dns/rules.cpp:157-161` | The first covering rule, or none when no rule covers the name. |
| `Rules.Namespaces` | `src/dns/rules.cpp:163-172` | Exactly the rules' namespaces, each once, in the order they first appear. |
| `Rules.TableAgreesWithRules` | `src/dns/rules.cpp:157-172` | For rules as loading leaves them, some installed namespace covers a name if and only if some rule does. |
| `HttpText.FindCrlf` | `src/dns/http_response.cpp:76-81` | The first line end at or after an offset, or none. |
| `HttpText.FindHeaderEnd` | `src/dns/http_response.cpp:83-97` | The first blank line at or after an offset, or none. |
| `HttpText.Trim` | `src/dns/http_response.cpp:37-43` | Drops the blanks at both ends and nothing else. |
| `HttpText.ParseNumber` | `src/dns/http_response.cpp:45-74` | For either radix: the value of a non-empty string of digits, if it fits 64 bits; nothing else is accepted. |
| `HttpFields.DigitsAre` | `src/dns/http_response.cpp:45-74` | The digits of both radices, in both cases. |
| `HttpFields.DecimalReadsBack` | `src/dns/http_response.cpp:45-56` | A number written in decimal is read back if it fits 64 bits, and otherwise refused. |
| `HttpFields.TrimsTo` | `src/dns/http_response.cpp:37-43` | Spaces and tabs around a text are trimmed. |
| `HttpFields.LinesAre` | `src/dns/http_response.cpp:156-160` | The lines of a head end at a carriage return followed by a line feed. |
| `HttpHead.ReadHead` | `src/dns/http_response.cpp:138-207` | Exactly which heads are accepted and what framing they ask for. |
| `HttpHead.FieldsAgree` | `src/dns/http_response.cpp:149-186` | A header is read to the end exactly when all its lines are fields and some number is what every Content-Length in it says; that number is then the length, if any line gave one. |
| `HttpAccept.AcceptedIsOk` | `src/dns/http_response.cpp:138-152` | A head that is accepted begins with HTTP/, and behind its first space comes 200 and then a space or the end of the line. |
| `HttpAccept.OtherStatusFails` | `src/dns/http_response.cpp:138-152` | Bytes with a whole head and another status end in an error, without a body, however they are split. |
| `HttpAccept.GivesUpIff` | `src/dns/http_response.cpp:126-136` | What it waits for, the parser waits for within 65536 bytes of head, 128 of a chunk-size line and 65536 of a trailer line, and gives up beyond. |
| `HttpAccept.LongHeadIsRefused` | `src/dns/http_response.cpp:133-136` | A head found is refused if it has more than 65536 bytes with its blank line. |
| `HttpFields.LengthFrames` | `src/dns/http_response.cpp:154-206` | With status 200, one Content-Length, written in decimal and named in any case, among lines about other things frames a body of that length, if it is at most 65535, and otherwise the head is refused. |
| `HttpFields.CodingFrames` | `src/dns/http_response.cpp:154-206` | With status 200, one Transfer-Encoding among lines about other things frames chunks if it says chunked, in any case, and otherwise the head is refused. |
| `HttpFields.TwoFramesMustAgree` | `src/dns/http_response.cpp:165-206` | Two lengths must agree, and a length and a coding are refused. |
| `HttpFields.TwoCodingsAreRefused` | `src/dns/http_response.cpp:176-191` | Two codings are never chunks, not even two halves of the word. |
| `HttpFields.SizeIsRead` | `src/dns/http_response.cpp:234-247` | A hexadecimal number with blanks around it is the size of a chunk, with or without an extension behind a semicolon. |
| `HttpParser.ReadSize` | `src/dns/http_response.cpp:234-247` | The size a chunk-size line announces, extensions ignored. |
| `HttpParser.HttpResponseParser.Process` | `src/dns/http_response.cpp:124-293` | The loop over the phases ends, and leaves the parser where running the steps over the whole buffer does. |
| `HttpParser.HttpResponseParser.Feed` | `src/dns/http_response.cpp:101-109` | One call takes the parser from where it stands to where the bytes lead, although it scans on from where the last call stopped; a finished parser takes nothing in. |
| `HttpParser.HttpResponseParser.MarkersSurvive` | `src/dns/http_response.cpp:126-136` | What was scanned for a marker without finding one needs no second scan when bytes are added. |
| `HttpParser.HttpResponseParser.Finish` | `src/dns/http_response.cpp:111-116` | The end of the stream fails a response that is not complete. |
| `HttpCore.Run` | `src/dns/http_response.cpp:124-293` | The steps end: each consumes bytes or moves to a later phase. |
| `HttpSplit.Resume` | `src/dns/http_response.cpp:124-293` | Running over a prefix and then over the whole is running over the whole, unless the first gave up on a long line. |
| `HttpSplit.SplitDoesNotMatter` | `src/dns/http_response.cpp:101-109` | Bytes whose lines are short enough come to the same result and body however they are split into calls. |
| `HttpSplit.AllSplitsAgreeIff` | `src/dns/http_response.cpp:226-285` | All splittings agree if and only if the bytes fed at once finish no chunk-size line over 127 bytes and no trailer line over 65535, or fail anyway. |
| `HttpAccept.LongLineIff` | `src/dns/http_response.cpp:226-285` | Those are the size lines of 128 bytes and more and the trailer lines of 65536 and more. |
| `HttpSplitExample.LongLineSplits` | `src/dns/http_response.cpp:226-250` | Every chunked response whose last size line is over 127 bytes completes when fed at once and fails for some way of feeding it. |
| `HttpSplitExample.SplittingCanMatter` | `src/dns/http_response.cpp:226-250` | Such bytes exist: a response of 175 bytes that completes at once and fails for some way of feeding it. |
| `HttpEncode.ChunkedBodyComesBack` | `src/dns/http_response.cpp:210-293` | Any body of at most 65535 bytes, chunked in any way with any extensions and trailers of short lines and fed in any pieces, completes with exactly that body. |
| `HttpEncode.FixedBodyComesBack` | `src/dns/http_response.cpp:210-225` | So does a body announced by its length, whatever follows it. |
| `HttpGrammar.CompletesIff` | `src/dns/http_response.cpp:124-293` | The parser, fed at once, completes with a body if and only if the bytes begin with an accepted head and, behind it, that body at its announced length, or chunks that carry it, a last chunk, trailers and a blank line, and it has at most 65535 bytes. |
| `HttpEncode.HexLineReadsBack` | `src/dns/http_response.cpp:57-74` | A size written in hexadecimal is read back, for every size up to 65535. |
| `Delivery.NegotiateUdpPayload` | `src/dns/dns_proxy.cpp:508-510` | Between 512 and 1232 bytes, and what the client asked for in between. |
| `Delivery.DeliverUdp` | `src/dns/dns_proxy.cpp:652-672` | What a UDP client is sent: the answer, its cut, or the failure. |
| `Delivery.VerdictIff` | `src/dns/message.cpp:314-338` | A response is sent whole exactly if it is no longer than the client's room and no shorter than the question, and cut exactly if it is longer and the question fits. |
| `Delivery.QuestionEndBound` | `src/dns/dns_proxy.cpp:658-668` | The question of a query that parses ends within the first 271 bytes. |
| `Delivery.ValidAnswerIsDelivered` | `src/dns/dns_proxy.cpp:658-670` | A valid answer is never replaced by a failure for lack of room: what is sent fits the client, repeats id and question, and has TC set if anything was cut. |
| `Delivery.FailureIsDelivered` | `src/dns/dns_proxy.cpp:658-670` | A failure always fits, and is the query's id and question with a response's flags, code 2 and no records. |
| `ForwarderLoop.DnsProxyState.Answers` | `src/dns/dns_proxy.cpp:536-556` | Decides exactly whether a response answers the query: id, question byte for byte, a response, a standard query, not truncated. |
| `ForwarderLoop.DnsProxyState.DeliverTo` | `src/dns/dns_proxy.cpp:671-683` | Frees the session and queues the answer, or closes the connection if it cannot be framed; skips a client that has gone. |
| `ForwarderLoop.DnsProxyState.AcceptTcpClient` | `src/dns/dns_proxy.cpp:992-1025` | The loop for the longest-idle session, and the return when the socket cannot be prepared, do what the accepting step does. |
| `ForwarderLoop.DnsProxyState.ServiceTcpSession` | `src/dns/dns_proxy.cpp:1028-1072` | The loop over the reader does what taking the first well-formed query does. |
| `ForwarderLoop.DnsProxyState.CollectNext` | `src/dns/dns_proxy.cpp:1084-1112` | One round of the harvest does what the collecting step does. |
| `ForwarderLoop.DnsProxyState.ExpirePending` | `src/dns/dns_proxy.cpp:1116-1141` | The erasing loop over the pending queries does what expiring them one by one does. |
| `ForwarderLoop.DnsProxyState.ExpireTcpSessions` | `src/dns/dns_proxy.cpp:1143-1158` | The erasing loop over the sessions removes exactly the expired ones. |
| `RacingSafety.StepKeeps` | `src/dns/dns_proxy.cpp:602-630` | Every step of the loop and the workers keeps the books: pending means not won and not answered, every submitted task is in one place, and every valid answer heard for a pending query is on its way to the loop. |
| `RacingSafety.AnsweredExactlyOnce` | `src/dns/dns_proxy.cpp:1076-1141` | In every run a query entered is pending and unanswered, or was given exactly one answer; and while it is pending something is coming that will settle it. |
| `RacingAnswers.HandedOverIsValid` | `src/dns/dns_proxy.cpp:1089-1104` | In every run, an answer handed over that is not a failure was heard from an upstream of that very race, and repeats the query's id and question, byte for byte, in an untruncated response to a standard query. |
| `RacingAnswers.FirstValidWins` | `src/dns/dns_proxy.cpp:1089-1104` | And the first such answer collected for a pending query is what its client is given, at once. |
| `RacingAnswers.QueryIsKept` | `src/dns/dns_proxy.cpp:948-968` | A race stands for the query that came, to the end of the run. |
| `RacingFailure.EarlyFailureMeansAllDone` | `src/dns/dns_proxy.cpp:1105-1111` | A failure from a completion means every submitted task has finished. |
| `RacingFailure.FailureIsWrongIff` | `src/dns/dns_proxy.cpp:1105-1111` | Such a failure hides a valid answer if and only if a valid one still waits behind the completion at hand: later in the batch, posted since, or counted and about to be posted. |
| `RacingFailure.DeadlineFailureIsWrongIff` | `src/dns/dns_proxy.cpp:1116-1141` | A failure at the deadline hides a valid answer if and only if one is posted and not collected, or counted and about to be posted. |
| `RacingFailure.NothingWaitingHidesNothing` | `src/dns/dns_proxy.cpp:1105-1141` | Once nothing the race's tasks brought waits anywhere, no failure of either kind hides an answer. |
| `RacingFailure.DeadlineCanHideAnAnswer` | `src/dns/dns_proxy.cpp:1116-1141` | For every query there is a run in which a valid answer was heard and the next step fails the query at its deadline. |
| `RacingCount.FailureAtTheLastIsRight` | `src/dns/dns_proxy.cpp:1105-1111` | A count the loop itself could keep: a failure from the last completion to be collected, as many as tasks were started, never hides an answer. |
| `RacingFailure.FailureCanHideAnAnswer` | `src/dns/dns_proxy.cpp:614-623` | And that happens, for every query: a run in which a valid answer was heard and the client is told the lookup failed. |
| `RacingFailure.ExpiryIsExact` | `src/dns/dns_proxy.cpp:1116-1141` | One pass fails exactly the queries whose deadline has passed and leaves every other query and race as it was. |
| `Intake.UdpIntakeIsCapped` | `src/dns/dns_proxy.cpp:948-956` | In every run at most 512 queries that came by UDP are pending. |
| `Intake.TcpIntakeIgnoresTheCap` | `src/dns/dns_proxy.cpp:1028-1072` | A TCP client's query is entered however many are pending. |
| `RacingTimes.ArrivalIs` | `src/dns/dns_proxy.cpp:948-968` | Below 512 pending queries one more is entered, to be failed 100 ms after the upstreams' time is over; at 512 it is failed at once and not entered. |
| `RacingTimes.NewcomerIs` | `src/dns/dns_proxy.cpp:992-1025` | Below 32 sessions a client comes in behind the others, with 15 seconds to begin, and none goes. |
| `RacingTimes.TakingIs` | `src/dns/dns_proxy.cpp:1028-1072` | The first well-formed query of an idle session is entered with that deadline, and the session is its own until then. |
| `RacingTimes.NothingToTake` | `src/dns/dns_proxy.cpp:1028-1041` | Malformed messages are dropped and the session stays idle; nothing is entered for it. |
| `RacingTimes.ActivityExtends` | `src/dns/dns_proxy.cpp:671-683` | What a client sends and is sent gives it 15 seconds more; an answer frees the session, or closes it if no length prefix can describe it. |
| `RacingTimes.ExpiryKeepsTheRest` | `src/dns/dns_proxy.cpp:1143-1158` | The sessions past their deadline go, and the others stay in their order. |
| `SessionSafety.OneQueryOwnsTheConnection` | `src/dns/dns_proxy.cpp:1028-1072` | In every run there are at most 32 sessions; a live one is busy exactly while one pending query, and no other, names it, and then nothing is queued for its client. |
| `SessionSafety.EvictionSparesTheBusy` | `src/dns/dns_proxy.cpp:992-1015` | At the cap a newcomer changes nothing exactly when every session is busy; otherwise the first of the longest-idle ones that are not goes, even if the newcomer's socket then cannot be prepared. |
| `SessionSafety.EvictionLosesAnAnswerIff` | `src/dns/dns_proxy.cpp:992-1015` | The session that goes still has its answer queued exactly if some idle session with an answer queued comes before every idle one without. |
| `Eviction.EvictionCanLoseAnAnswer` | `src/dns/dns_proxy.cpp:992-1017` | For every query there is a run that loses its answer so: queued over TCP, not sent, and the next client to come, let in or not, costs the client its connection. |
| `SessionSafety.StepKeepsSeats` | `src/dns/dns_proxy.cpp:992-1158` | Every step keeps sessions and pending queries paired. |
| `SessionOrder.AnsweredInOrder` | `src/dns/dns_proxy.cpp:1028-1072` | In every run the well-formed queries a client sent are, in order, those answered, the one being answered, and those still waiting. |
| `CertCache.Cache.Sweep` | `src/dns/dnscrypt_cert_cache.h:323-343` | Drops exactly the entries and failure records that have been dead long enough. |
| `CertCache.Cache.Begin` | `src/dns/dnscrypt_cert_cache.h:149-186` | Decides between a hit, a cooldown, joining a running fetch and starting one, and installs the slot in the last case only. |
| `CertCache.Cache.Finish` | `src/dns/dnscrypt_cert_cache.h:187-222` | Erases the slot only if it is this round's, and records the certificate or one more strike. |
| `CertSafety.StepKeeps` | `src/dns/dnscrypt_cert_cache.h:143-246` | Every step of any number of callers keeps slots, owners and pending entries in agreement. |
| `CertSafety.SingleFlight` | `src/dns/dnscrypt_cert_cache.h:143-205` | In every run at most one fetch per provider is in progress, an entry is pending exactly while one is, and the round check always finds its own round. |
| `CertSafety.WaiterGetsItsOwnRound` | `src/dns/dnscrypt_cert_cache.h:225-246` | A waiter that is not cancelled returns what the owner of its own round fetched for its provider; until then the owner is at work or has left the result. |
| `CertSafety.CachedIsFreshAndOurs` | `src/dns/dnscrypt_cert_cache.h:153-156` | An answer from the cache is valid, has more than an hour left, and was brought by a fetch for that very provider. |
| `CertHits.FetchedIsUsed` | `src/dns/dnscrypt_cert_cache.h:149-222` | Once a valid certificate is settled, and until a later one is or the calls run more than an hour past its end, every call for its provider that comes within its time and more than an hour before its end returns it and fetches nothing. |
| `CertHits.WhatACallGets` | `src/dns/dnscrypt_cert_cache.h:149-186` | In every timely run, a call that finds no certificate to use is turned away exactly while the cooldown of the last failed fetch lasts, and otherwise waits for the fetch in progress or, if there is none, starts one. |
| `CertHits.CancelledGetsNothing` | `src/dns/dnscrypt_cert_cache.h:237-242` | A waiter that is cancelled returns nothing to use. |
| `CertHits.DroppedAfter` | `src/dns/dnscrypt_cert_cache.h:323-343` | A call drops the certificates that ended more than an hour before it, and keeps the others; and away from the wrap it forgets the failures whose cooldown ended more than a day before it. |
| `CertHits.CooldownsAre` | `src/dns/dnscrypt_cert_cache.h:207-220` | Half a minute, doubling, up to ten minutes. |
| `CertBackoff.FailingProviderIsLeftAlone` | `src/dns/dnscrypt_cert_cache.h:158-161` | With a monotone clock away from the wrap, a provider that failed is fetched again only after its cooldown; cooldowns double up to 600 seconds and start over only after a success or a day past the last one. |
| `CertBackoff.FetchInProgressWaited` | `src/dns/dnscrypt_cert_cache.h:158-161` | So did a fetch now in progress. |
| `CertBackoff.CooldownsDouble` | `src/dns/dnscrypt_cert_cache.h:207-220` | In every timely run the n-th failure of a provider in a row sets a cooldown of min(30 * 2^n, 600) seconds. |
| `CertBackoff.FailuresAreSpread` | `src/dns/dnscrypt_cert_cache.h:158-161` | In every timely run failures in a row are more than 30 seconds apart each, even where a swept record reset the strikes. |
| `CertBackoff.CooldownHoldsIff` | `src/dns/dnscrypt_cert_cache.h:312-343` | A cooldown is honoured throughout if and only if neither it nor the day its record is kept reaches the 32-bit wrap. |
| `SocketOwnership.CancelToken.Add` | `src/dns/cancel.cpp:31-45` | A cancelled token closes the socket then and there and keeps nothing; otherwise the socket is added and stays open. |
| `SocketOwnership.CancelToken.Release` | `src/dns/cancel.cpp:47-53` | Gives up the first socket with that value, if there is one. |
| `SocketOwnership.CancelToken.TakeAll` | `src/dns/cancel.cpp:61-65` | Hands over every socket and keeps none. |
| `SocketOwnership.CancelToken.Cancel` | `src/dns/cancel.cpp:55-72` | Sets the flag first, then closes exactly the registered sockets, and keeps none. |
| `SocketSafety.ReleasesItsOwn` | `src/dns/cancel.cpp:47-53` | What a token gives back under a value is the very socket its handle registered, though values are reused. |
| `SocketSafety.StepKeeps` | `src/dns/socket_utils.h:168-262` | Every step of any number of handles, tokens and cancellations keeps each open socket with exactly one closer. |
| `SocketSafety.ClosedExactlyOnce` | `src/dns/socket_utils.h:168-262` | In every run every close hits the socket it was meant for, and each socket opened is open or was closed exactly once. |
| `SocketSafety.NothingIsLeftOpen` | `src/dns/cancel.cpp:24-29` | Once every handle is empty, every token cancelled and every Cancel over, nothing is open. |
| `SocketLaws.NewTokenTakes` | `src/dns/cancel.cpp:31-45` | A new token takes what is registered with it, and leaves it open. |
| `SocketLaws.MovedWhole` | `src/dns/socket_utils.h:168-262` | A socket is moved whole, with its token, into a handle that holds none. |
| `TcpStream.EncodeTcpMessage` | `src/dns/tcp_session.cpp:31-40` | The length and the message; nothing exactly for an empty message or one over 65535 bytes. |
| `TcpStream.TcpSessionReader.Append` | `src/dns/tcp_session.cpp:92-122` | Adds the bytes unless the unread ones would pass 65537, and then drops everything and reports Broken; the state reported is that of the front of the stream. |
| `TcpStream.TcpSessionReader.TakeMessage` | `src/dns/tcp_session.cpp:124-136` | Takes the whole message at the front, if there is one, and its frame with it. |
| `TcpStream.TcpSessionReader.Clear` | `src/dns/tcp_session.cpp:138-142` | As if nothing had been appended. |
| `TcpStream.NothingLostOrMadeUp` | `src/dns/tcp_session.cpp:92-136` | Over any use the frames of the messages taken, then the unread bytes, are all bytes appended since the last overflow, and the unread bytes stay within 65537. |
| `TcpStream.SentComesBack` | `src/dns/tcp_session.cpp:31-136` | Messages sent framed come back whole and in order however the bytes are cut and whenever messages are taken. |
| `TcpStream.BrokenStays` | `src/dns/tcp_session.cpp:65-69` | A zero length at the front stays there while the buffer does not overflow. |
| `TcpStream.BrokenRecoversIff` | `src/dns/tcp_session.cpp:108-117` | A broken stream can yield a message again exactly after an overflow, which empties it. |
| `TcpStream.FrontIs` | `src/dns/tcp_session.cpp:44-69` | By its bytes: a length of zero is bad as soon as both its bytes are there, and a message is whole when as many bytes as its length says follow. |
| `TcpStream.OverflowIff` | `src/dns/tcp_session.cpp:108-117` | Bytes that bring the unread ones over 65537 empty the reader, and no others do. |
| `Glob.MatchSegment` | `src/app/filesystem.cpp:58-81` | The greedy loop that remembers only the last star ends and decides exactly the declarative meaning of `*` and `?`. |
| `Glob.NewStarDominates` | `src/app/filesystem.cpp:63-67` | Reaching a new star, no earlier one needs to be tried again. |
| `GlobPath.NormalizePath` | `src/app/filesystem.cpp:31-36` | Every slash becomes a backslash and nothing else changes. |
| `GlobPath.SplitPath` | `src/app/filesystem.cpp:39-49` | The non-empty runs between separators, in order. |
| `GlobPath.SplitJoin` | `src/app/filesystem.cpp:39-49` | Splitting undoes joining. |
| `GlobPath.CompilePattern` | `src/app/filesystem.cpp:118-165` | Valid exactly for the patterns allowed, and then each segment with its kind. |
| `GlobAllowed.AllowedIff` | `src/app/filesystem.cpp:118-150` | A pattern is accepted if and only if it does not begin with a separator, has a segment, none with a colon or two dots in a row or that is a lone dot, and ends neither in `**` nor in `**` and a lone `*`. |
| `GlobPath.MatchFrom` | `src/app/filesystem.cpp:188-215` | The recursive matcher decides exactly the declarative meaning of `**` over segments. |
| `GlobPath.MatchSegments` | `src/app/filesystem.cpp:174-186` | The branch without recursion decides the same meaning for patterns without `**`. |
| `GlobPath.PlainPathMatches` | `src/app/filesystem.cpp:174-186` | Without `**` a path matches if and only if it has as many segments, each matching its own. |
| `GlobPath.MatchesPattern` | `src/app/filesystem.cpp:167-218` | Both branches together, on any path. |
| `GlobPath.CompileAndMatch` | `src/app/filesystem.cpp:118-218` | Compiling a pattern and matching a path decides what the pattern means, for every pattern and path. |
| `GlobMeaning.SinglesMatch` | `src/app/filesystem.cpp:58-81` | One character of a pattern: a star matches everything, a question mark one character, and any other itself. |
| `GlobMeaning.MatchesInARow` | `src/app/filesystem.cpp:58-81` | Two patterns one behind the other match exactly the segments that can be cut into one for each. |
| `GlobMeaning.SinglePatternsMatch` | `src/app/filesystem.cpp:167-218` | One segment of a pattern: `**` matches every path, and any other the paths of one segment that it matches. |
| `GlobMeaning.PathMatchesInARow` | `src/app/filesystem.cpp:188-215` | Two patterns one behind the other match exactly the paths that can be cut into one for each. |
| `RepairBudget.Repairs.Allow` | `src/dns/redirector.cpp:34-41` | A call is allowed while no more than five were made since the one that opened its window; a call 60000 ms after that one opens the next. |
| `RepairBudget.AtMostNine` | `src/dns/redirector.h:62-63` | For a monotone clock no half-open interval of 60000 ms sees more than 9 repairs allowed, hence never more than 10, and none that no call precedes sees more than 5. |
| `RepairBudget.NineHappen` | `src/dns/redirector.cpp:34-41` | And 9 are possible, within two milliseconds around the end of a window. |
| `Redirection.StartReturnsIff` | `src/dns/redirector.cpp:139-146` | In every run, once the install is made, the thread that made it can still return from Start or any later call if and only if there was nothing to install or the registry took it: refused, it asks again for the table lock it holds. |
| `Redirection.AtRestNoneWasRefused` | `src/dns/redirector.cpp:139-146` | A run that ends with the redirector up or down has no refused install in it. |
| `Redirection.RefusedInstallStrands` | `src/dns/redirector.cpp:172-180` | That happens for any rules that name something and whatever the table held: the registry refuses a first Start, which never returns, with the server up and no roll-back made. |
| `Redirection.RelockingForGood` | `src/dns/redirector.h:204` | From then on that thread stays where it is, no other thread of the redirector runs, the server ends only on its own, and only another program changes the table. |
| `Redirection.LeftBehindIff` | `src/dns/redirector.cpp:172-207` | In every run, with the redirector down, the last call was a Stop, or a Start that the server or the guardian refused; no thread runs, the server included; the table holds a rule of this program's if and only if the last removal failed on one and nothing outside touched it since; and nothing before the next Start puts one there. |
| `Redirection.NothingIsLeftBehind` | `src/dns/redirector.cpp:172-207` | So where every removal succeeds, none is left, not even one of an earlier run once a removal was made. |
| `Redirection.StopCanLeaveTheRule` | `src/dns/nrpt.cpp:260-271` | Where one fails the rule does stay: a run of Start and Stop, for any rules that name something, ends with it in the table. |
| `Redirection.RepairsAnswerDisturbances` | `src/dns/redirector.cpp:286-333` | The guardian does not answer its own writing: it writes at most once for each disturbance of the table, and, if the table never reads back as written, at most once more for each Start. |
| `Redirection.UnrecognisedWritesOnce` | `src/dns/redirector.cpp:302-331` | If the table never reads back as written and there is a rule to hold, each Start's guardian writes at most once, whatever disturbs the table. |
| `RedirectionSteps.RightIsLeftAlone` | `src/dns/redirector.cpp:286-292` | Where the table already reads as the rules say, the guardian changes nothing. |
| `RedirectionSteps.WrongIsRepaired` | `src/dns/redirector.cpp:294-331` | Where it does not, the guardian gives up once the budget is spent, and otherwise puts the rule back once; it goes on watching only what it can read back, and gives up when the write fails. |
| `RedirectionSteps.LeftOverIsRemoved` | `src/dns/redirector.cpp:286-332` | A rule left in the table where the rules name nothing is removed. |
| `RedirectionSteps.UnwatchedIsNotRepaired` | `src/dns/redirector.cpp:401-409` | Where the watch of the table cannot be renewed, the guardian repairs nothing more. |
| `RedirectionSteps.InstallLeaves` | `src/dns/nrpt.cpp:203-258` | An install leaves the whole rule, or says that it failed. |
| `RedirectionSteps.ReloadIsAdopted` | `src/dns/redirector.cpp:89-113` | New rules are adopted at once, and put in the table where the server runs. |
| `RedirectionSteps.WayDown` | `src/dns/redirector.cpp:160-180` | A start without a guardian takes its rule back, then the server. |
| `Supervision.ReportsStayInTheirGeneration` | `src/app/services.cpp:537-566` | In every run a report that goes through takes down the stack its own supervisor was armed for, still whole; any other changes nothing. |
| `Supervision.DisarmCannotDeadlock` | `src/app/services.cpp:172-216` | A stop never deadlocks on the supervisor it waits for, even from inside that supervisor's own reaction. |
| `Supervision.StartIsAllOrNothing` | `src/app/services.cpp:615-737` | A start that ends returns true with all four components launched, or false with none, unless the program is shutting down. |
| `Supervision.OperationsEndIff` | `src/app/services.cpp:615-737` | In every run, the operation under way can still end, with the stack up whole or not at all, if and only if no launch had its policy rule refused. |
| `Supervision.StrandedForGood` | `src/app/services.cpp:713-723` | A start whose rule is refused keeps the operation mutex for good, so that no stop or reaction can begin, with the proxy, nginx and sni-gate up. |
| `Supervision.RefusedRuleStrands` | `src/app/services.cpp:713-723` | And that happens in a first start. |
| `SupervisionSteps.WholeStartHappens` | `src/app/services.cpp:615-737` | A first start can bring all four components up and be watched. |
| `SupervisionSteps.SecondStart` | `src/app/services.cpp:617-635` | With everything up a second start says true and changes nothing; with something dead it stops what is left first; while the program shuts down it says false. |
| `SupervisionSteps.DeathTakesDown` | `src/app/services.cpp:537-578` | Whichever component of a watched stack dies, a run of its supervisor takes the others down and disarms it. |
| `SupervisionSteps.WokenByDeathOnly` | `src/app/services.cpp:172-216` | A supervisor reports a component only if that has died and its wait was not cancelled. |
| `SupervisionSteps.ShutDownIsFinal` | `src/app/services.cpp:858-879` | Once the program shuts down no report takes the stack down, and no start brings it up. |
| `ProcessTree.CollectTree` | `src/platform/process.cpp:46-75` | Ends on any snapshot, cycles included, with the root and exactly its descendants, each once, each found after a parent of its own. |
| `ProcessTree.ChildrenFirst` | `src/platform/process.cpp:46-75` | When no process has two parents, each but the root comes before its parent. |

## Left out

- Sockets, select, TLS, cryptography, the registry, the service manager, process launching and files:
  what they return is a parameter or an event with any outcome.
- The transports (plain, DoH, DoT, DNSCrypt clients): an upstream returns any bytes at any time.
- Memory order: atomics and locked regions are single steps. In `Racing` submitting a task and
  counting it in `total` are one step; only the loop thread reads `total`.
- The deadline of a race's cancellation: cancelling only makes an upstream return early, which any run
  allows.
- Listeners in the forwarder: the one a query arrived on selects its upstreams and nothing else, so
  the model has one.
- `ForwarderLoop.DnsProxyState.CollectNext`: one completion of the batch at a time, because the workers
  run between two of them.
- `Truncation.TruncatedWalksThrough`: needs the surviving names to stay inside the part kept. For names
  clear of the header that is exactly when (`TruncatedWalk.CutIsConsistentIff`); a name that leads into
  the header, whose counts the cut rewrites, is not followed further.
- `WireBoundaries.BoundariesOnWire`: goes one way, because misread fields can give the right end
  (`WireBoundaries.MisreadFieldsCanAgree`); what is read where is decided both ways.
- `CertBackoff.FailingProviderIsLeftAlone`: needs callers whose times do not go back and stay clear of
  the wrap, since both come from the caller's clock; `CertBackoff.CooldownHoldsIff` says what the wrap does.
- `SocketSafety.ClosedExactlyOnce`: a handle is registered with one token at most, as every caller in
  the source does; `SocketHandle::Release`, which nothing calls, is not modelled.
- SocketHandle as a class: its Close spans two regions other threads interleave, so it is two steps.
- `Rules.LoadRules`: a line comes as its action, addresses and tokens, none of them empty; cutting text
  into tokens and reading an address are not modelled.
- `Redirection.LeftBehindIff`: Start is called on a redirector that is down, and the watcher is
  started after it, as the service stack does.
- `Redirection.StartReturnsIff`: for a refused install, of what the standard leaves undefined, the model
  has the thread take no further step. If an exception leaves it instead, the locks on its way are
  let go before the program ends for want of a handler.
- The resolver's own loop (upstream ids, which may repeat one in use after 64 tries, forwarded queries,
  its TCP sessions): the forwarder's loop, with workers, is the harder of the two.
- `WritePending` of a TCP session: a write sends some prefix of the bytes queued, and the model's
  `WrittenE` is the step at which none are left.
- Output lines of child processes, port claims, stamps and INI files: they touch no state that the
  protocols above share.
- Everything on screen: windows, tray, dialogs and their texts.
- Name collation and case of paths: characters are compared as they are, as the source does.

# DNS-Resolver-2.0 in Dafny

A model of the three working programs of the DNS-Resolver-2.0 repository, with proofs about each:

- **The resolver service** (`Task4/server.py`). It receives DNS queries over UDP. It answers a name it has resolved before from its response cache. Otherwise it walks a fixed list of root servers and chases each root's referral one hop: it asks every A-record address of the additional section, in order. It stores glue A records and successful replies. It answers SERVFAIL when every root is spent. Every reply it receives is logged as one comma-separated trace line.
- **The domain extractor** (`Task2/extract_domains.py`). It scans a packet capture, collects the distinct query names (without their trailing dot), counts packets, queries and decoding errors, and writes the names sorted, one per line.
- **The load client** (`Task4/client.py`). It collects the DNS queries of four capture files. It stamps each with an 8-byte header: HHMMSS, then a two-digit sequence id. It sends each as a 4-byte big-endian length-prefixed frame and keeps per-host success, failure and byte counters.

## Structure

- **`Dns`**: DNS messages as records: id, flag bits, question, answer and additional sections, rcode. Also the reply builders the service uses: the answer sent back, the SERVFAIL reply, and the id rewrite on a cache hit.
- **`Text`**: comma and newline joining and splitting with Python `str.split` semantics. It proves split-after-join.
- **`Trace`**: the trace record, its three kinds (root reply, referral-candidate reply, cache hit), the header row and the rendered line.
- **`Cache`**: the `update_cache` glue merge as a function. It proves that the merge is an ordered upsert of the section's A records, in the order both loops visit them.
- **`Lookup`**: `recursive_lookup` as functions. `TryCandidates` is the candidate loop, `AskRoot` one root pass, and `Walk` the walk over the roots. Independent reference definitions accompany them: `RootAnswer`, `FirstAnswer`, `TraceOf`, `ReferralQueries` and `RootsTried`.
- **`Listener`**: one pass of the `while True` body (`Handle`) and the loop over a finite run of datagrams (`Run`), as functions of the resolver state.
- **`Server`**: the service as a class. The module-level caches and the trace log are fields. `UpdateCache`, `ChaseReferrals`, `RecursiveLookup`, `Serve` and `ServeAll` have the source's loops and are proved equal to the functions above.
- **`DomainExtractor`**: the extractor. Its packet loop is a method proved against per-packet specification functions. `sorted` is modelled by a least-first construction over Python's string order.
- **`LoadClient`**: the client's collection loops and send loop as methods, proved against specification functions. The header and framing codecs carry round-trip lemmas.

The outside world enters as parameters:

- **Upstream network**: a function from (server, name, qtype) to `NoReply` or `Reply(message, rtt)`. `ServeAll` takes one such function per datagram.
- **Outbound traffic**: recorded in the ghost field `sent` of the resolver, so "sends nothing upstream" can be stated.
- **Client side**: the clock is a function of the sequence number, the capture files are a map from path to packets, and each connection exchange is given as an outcome.

## Where the code departs from what a tracing resolver is expected to do

A resolver that traces its work is commonly expected to log every attempt, to label each reply by what it is, to log bad input, and to key its caches by a normalised name. The model follows the code, which departs from these expectations in each of the following cases:

- **Timeouts leave no trace line.** One would expect every upstream attempt, including a timeout, to write a trace record. In the code, `log_event` runs only after a reply has arrived (`Task4/server.py:49-51`, `65-67`), so a timed-out attempt leaves no line. `Lookup.WalkTracesReplies` states the code's behaviour.
- **Root replies are always labelled `Referral`.** A root's reply is logged as `Root`/`Referral` even when it carries the answer (`Task4/server.py:51-54`).
- **Malformed datagrams are not logged.** The code only prints the exception (`Task4/server.py:114-116`). The model's `Handle` leaves the log unchanged and sends no reply.
- **Cache keys are not normalised.** The response cache is keyed by `q.name.to_text()` as received (`Task4/server.py:87`), and the glue cache by `str(rrset.name)`, the owner names of the additional section (`Task4/server.py:41`). Both keep the trailing dot and the case. The model keys both by the name text unchanged.
- **The response key covers every query type.** The response cache is keyed by the name alone, so a cached name is answered whatever the query type asks for. `Listener.ResolvedThenCached` states this.
- **A request with QR set gets no failure reply.** The DNS library's `make_response` raises when the message it is given is already marked a response. So such a request is answered when it hits the cache or resolves, but gets nothing when every root is spent (`Task4/server.py:107-110`, `114-116`). `Dns.MakeResponse` and `Listener.ReplyCarriesRequestId` state this.

## Model

| member | source | states |
|---|---|---|
| Dns.MakeResponse | Task4/server.py:108 | `make_response` raises exactly when the request already has QR set. Otherwise the skeleton keeps the request's id and question, copies RD and the OPCODE, sets QR, clears every other flag bit, and has RCODE 0 and no records. |
| Dns.ServfailFor | Task4/server.py:107-110 | The failure reply exists exactly when the request has QR clear. It keeps the request's id, question, RD and OPCODE, has RCODE 2 and no records, and has QR on and RA off. |
| Dns.AsReply | Task4/server.py:101-104 | A resolved reply gets the request's id and QR and RA set. Every other flag bit and every section is left as the upstream sent it. |
| Dns.WithId | Task4/server.py:92-94 | A cached reply is resent with only its id replaced by the request's. |
| Trace.RootRecord | Task4/server.py:51 | A root reply is logged against that root with step Root, kind Referral and status MISS. |
| Trace.CandidateRecord | Task4/server.py:67 | A referral-candidate reply is logged against that address with step TLD/Auth, kind Response and status MISS. |
| Trace.HitRecord | Task4/server.py:96 | A cache hit is logged with no server ("-"), step Cache, RTT 0 and status HIT. |
| Trace.Line | Task4/server.py:29-33 | Each event renders as one line that ends with a newline. |
| Trace.LineColumns | Task4/server.py:29-33 | When no value holds a comma or a newline, a line splits back, column by column, into exactly its eight values: the timestamp, then the record's fields. |
| Trace.HeaderColumns | Task4/server.py:76-78 | The header row splits into exactly the eight column names, in order. |
| Cache.MergeRdatas | Task4/server.py:38-41 | The inner loop of `update_cache` as a definition. `Cache.MergeRdatasIsUpsert` proves it upserts the RRset's A records in order. |
| Cache.MergeGlue | Task4/server.py:35-41 | `update_cache` as a definition. Its meaning is stated by `Cache.MergeGlueIsUpsert` and `Cache.GlueAfterMerge`. |
| Cache.MergeGlueIsUpsert | Task4/server.py:35-41 | `update_cache` upserts, in RRset order and then record order, every A record of the additional section, and nothing else. |
| Cache.GlueAfterMerge | Task4/server.py:35-41 | Afterwards a name is present exactly when it was before or owns an A record of the section. The last such record's address wins. |
| Cache.UpsertKeys | Task4/server.py:35-41 | After an ordered upsert, a name is present exactly when it was before or owns one of the records. |
| Cache.UpsertLastWins | Task4/server.py:38-40 | The last record for an owner decides that owner's address. |
| Cache.UpsertUntouched | Task4/server.py:35-41 | An entry whose name owns no A record of the section keeps its value. |
| Cache.ARecordsAreTypeA | Task4/server.py:38-40 | The records visited are exactly the (owner, address) pairs of type-A records of the section. |
| Lookup.TryCandidates | Task4/server.py:58-71 | The candidate loop as a definition of its result, trace and traffic. `Lookup.CandidatesResult`, `Lookup.CandidatesInOrder` and `Lookup.CandidatesTrace` state what it computes. |
| Lookup.AskRoot | Task4/server.py:46-73 | One root pass as a definition. `Lookup.AskRootResult`, `Lookup.AskRootSent` and `Lookup.AskRootTrace` state what it computes. |
| Lookup.Walk | Task4/server.py:43-74 | `recursive_lookup` as a definition. `Lookup.WalkFindsFirstAnswer`, `Lookup.WalkAsksRootsInOrder`, `Lookup.WalkTracesReplies` and `Lookup.WalkChasesOneHop` state what it computes. |
| Lookup.Answered | Task4/server.py:53-54 | A reply counts as an answer exactly when its answer section is non-empty. |
| Lookup.CandidatesResult | Task4/server.py:58-71 | The candidate loop returns the first reply with an answer among the A-record addresses, or None. |
| Lookup.CandidatesInOrder | Task4/server.py:58-71 | The candidate loop asks the addresses in record order, up to and including the first one that answers. |
| Lookup.CandidatesTriedAt | Task4/server.py:58-71 | The loop stops at the first answering address, and every address before it gave no answer; when none answers it runs through all of them. |
| Lookup.FirstAnswerAt | Task4/server.py:58-71 | The candidate loop's answer comes from an address that answers, and every earlier address gave no answer. |
| Lookup.CandidatesTrace | Task4/server.py:62-71 | The candidate loop only appends to the traffic. It writes one TLD/Auth line per reply and none for a timeout. |
| Lookup.RootAnswerIsAnswer | Task4/server.py:45-71 | What a root leads to is a reply with a non-empty answer section. |
| Lookup.AskRootResult | Task4/server.py:45-73 | One root pass yields the root's own answer, else the first candidate answer of its referral, else None. |
| Lookup.AskRootSent | Task4/server.py:45-73 | One root pass sends exactly one root query, then only referral queries derived from that root's reply. |
| Lookup.AskRootTrace | Task4/server.py:45-73 | One root pass only appends, and its trace lines are exactly those of the queries that got a reply. |
| Lookup.WalkFindsFirstAnswer | Task4/server.py:43-74 | `recursive_lookup` returns None exactly when no root leads to an answer. Otherwise it returns the answer of the first root, in list order, that leads to one. |
| Lookup.RootsTriedAt | Task4/server.py:45-74 | The walk stops at the first root that leads to an answer, or runs through the whole list. |
| Lookup.WalkAsksRootsInOrder | Task4/server.py:45-74 | The walk asks the roots in list order, each once, up to and including the first that leads to an answer. It only appends to the traffic. |
| Lookup.WalkTracesReplies | Task4/server.py:43-74 | The trace lines the walk appends are, in order, one per reply received. Root replies are labelled Root/Referral and referral replies TLD/Auth/Response. |
| Lookup.WalkChasesOneHop | Task4/server.py:43-74 | Every query goes to a root or to an address named in an A record of the reply of a root that gave no answer. Referrals are chased one hop, never deeper. |
| Listener.Handle | Task4/server.py:80-116 | One pass of the loop body as a definition of the reply and the new state. The Listener lemmas below state what it computes. |
| Listener.ReplyCarriesRequestId | Task4/server.py:80-116 | A request gets a reply exactly when it decodes and has a question, and either has QR clear or is cached or resolvable. The only exception is a QR-set request that fails resolution, whose failure reply raises. The reply carries the request's id on every path. |
| Listener.CacheHitPath | Task4/server.py:90-97 | A cached name is answered with the stored reply under the new id. One HIT line is logged, nothing is sent upstream, and both caches stay unchanged. |
| Listener.OnlyAnswersAreCached | Task4/server.py:99-110 | The response cache changes only by storing, under the requested name, a reply as sent, with a non-empty answer and QR and RA set. SERVFAIL is never cached. |
| Listener.ExhaustedRootsServfail | Task4/server.py:107-110 | When no root leads to an answer, a request with QR clear gets SERVFAIL with its id and question, and a request with QR set gets no reply. The response cache stays unchanged either way. |
| Listener.ResolvedThenCached | Task4/server.py:90-106 | After a request is answered with a non-empty answer section, a later request for the same name, of any query type, gets that reply under its own id and sends nothing upstream. |
| Listener.HandleOnlyAppends | Task4/server.py:80-116 | No cache entry disappears, and the log and the outbound traffic are only appended to. |
| Listener.WalkKeepsGlue | Task4/server.py:41 | The glue cache keeps every name it had. |
| Listener.Run | Task4/server.py:80-116 | The serving loop over a finite run of datagrams as a definition. It gives one reply slot per datagram. |
| Listener.RunReplyAt | Task4/server.py:80-116 | The k-th reply is what handling the k-th datagram gives in the state the earlier datagrams left. |
| Listener.RunRepliesInOrder | Task4/server.py:80-116 | Over a run of datagrams, the k-th reply exists exactly when the k-th datagram gets a reply in the state the earlier ones left, and it carries that datagram's id. A datagram that raises does not stop the loop. |
| Server.Resolver.constructor | Task4/server.py:21-22 | The service starts with empty caches and an empty log under the header row. |
| Server.Resolver.UpdateCache | Task4/server.py:35-41 | The nested loops leave the glue map equal to the ordered merge of the section's A records. |
| Server.Resolver.ChaseReferrals | Task4/server.py:58-71 | The nested candidate loops, with their early return, send, log and return exactly what `TryCandidates` specifies. |
| Server.Resolver.RecursiveLookup | Task4/server.py:43-74 | The root loop returns, and leaves the glue, the log and the traffic, exactly as `Walk` specifies. |
| Server.Resolver.Serve | Task4/server.py:80-116 | One pass of the serving loop produces the reply and the new state that `Handle` specifies. |
| Server.Resolver.ServeAll | Task4/server.py:80-116 | A run of the serving loop produces the replies and the final state that `Run` specifies. |
| DomainExtractor.StripDot | Task2/extract_domains.py:34-35 | Exactly one trailing dot is removed when there is one, and nothing else changes. |
| DomainExtractor.StripDotOnce | Task2/extract_domains.py:34-35 | "a." becomes "a", "a.." becomes "a.", and "a" stays as it is. |
| DomainExtractor.ProcessPackets | Task2/extract_domains.py:26-40 | The loop counts every packet. It counts every question packet as a query before decoding its name. It counts a name that fails to decode as an error and goes on. It collects the stripped names. |
| DomainExtractor.CountersBounded | Task2/extract_domains.py:26-40 | The query count never exceeds the packet count. Distinct names plus errors never exceed the query count. |
| DomainExtractor.DomainSetMembers | Task2/extract_domains.py:29-36 | A name is collected exactly when some query packet's name decodes and strips to it. |
| DomainExtractor.BelowTotal | Task2/extract_domains.py:54 | Python's string order compares any two distinct strings. |
| DomainExtractor.BelowTransitive | Task2/extract_domains.py:54 | Python's string order is transitive. |
| DomainExtractor.BelowIrreflexive | Task2/extract_domains.py:54 | No string is below itself. |
| DomainExtractor.SortedList | Task2/extract_domains.py:54 | `sorted(list(domains))` holds every name once, strictly increasing. |
| DomainExtractor.Output | Task2/extract_domains.py:52-55 | The output file's text as a definition. `DomainExtractor.OutputLines` states what it holds. |
| DomainExtractor.OutputLines | Task2/extract_domains.py:52-55 | The output file holds one line per distinct name, in increasing order, each ended by a newline. |
| DomainExtractor.ExtractDomains | Task2/extract_domains.py:8-62 | Any argument count other than two exits with usage. A missing capture file writes nothing. Otherwise the named output file receives the sorted names. |
| LoadClient.Header | Task4/client.py:44-46 | The header is 8 ASCII digits. |
| LoadClient.HeaderRoundTrip | Task4/client.py:44-46 | The header reads back as the clock's hour, minute and second, and the sequence id `total_all mod 100`. |
| LoadClient.PackU32 | Task4/client.py:82 | `struct.pack("!I")` gives 4 bytes exactly when the length is below 2^32. Otherwise it raises. |
| LoadClient.UnpackU32 | Task4/client.py:91 | `struct.unpack("!I")` succeeds exactly on 4 bytes. |
| LoadClient.PackThenUnpack | Task4/client.py:82-91 | Unpacking a packed length gives the length back. |
| LoadClient.UnpackThenPack | Task4/client.py:82-91 | Packing an unpacked 4-byte prefix gives the prefix back. |
| LoadClient.Frame | Task4/client.py:82 | A frame is the 4-byte length followed by the payload. |
| LoadClient.FrameRoundTrip | Task4/client.py:82 | A frame read off a stream yields its payload and leaves the following bytes untouched. |
| LoadClient.Queries | Task4/client.py:43 | Only packets with a DNS layer and QR = 0 are kept. |
| LoadClient.QueriesMembers | Task4/client.py:41-47 | A packet is kept exactly when it is in the capture, has a DNS layer and has QR = 0. |
| LoadClient.QueriesAppend | Task4/client.py:41-47 | A single packet is kept exactly when it is a query, and the queries of two runs of packets are the first run's followed by the second's. So every query is appended, in capture order. |
| LoadClient.CollectFile | Task4/client.py:40-53 | The inner loop appends the file's queries in order, each stamped and numbered by the running `total_all`. |
| LoadClient.Collect | Task4/client.py:26-53 | `dns_pkts` is the stamped list of the collected pairs, and `total_all` counts it. |
| LoadClient.CollectedKnownHosts | Task4/client.py:26-53 | Every entry the collection loops produce names one of the four hosts, so the send loop's `stats[host]` lookups succeed. |
| LoadClient.CollectedPerHost | Task4/client.py:30-53 | Host i's entries are exactly the queries of capture file i, in order. A missing file gives none, and the other files are still read. |
| LoadClient.StampedEntry | Task4/client.py:44-73 | Entry k carries its packet and host. Its payload is its header, holding the clock reading and `k mod 100`, followed by the DNS bytes. |
| LoadClient.Send | Task4/client.py:80-108 | The `try` block for one entry as a definition. `LoadClient.SendOutcome` states what it computes. |
| LoadClient.SendOutcome | Task4/client.py:80-108 | An attempt is a success exactly when the frame fits and a full 4-byte reply length comes back. Exactly then it writes a SUCCESS row with the exchange's latency. An empty read is a logged FAIL with latency 0.00. Every exception leaves no row. A row has the entry's host, domain and size. A frame that is sent reads back as the payload. |
| LoadClient.SendOne | Task4/client.py:80-108 | The `try` block computes exactly the outcome `Send` specifies. |
| LoadClient.SendEntry | Task4/client.py:72-108 | `bytes_sent` grows by the payload size before the `try`. Then exactly one of success and fail grows by one. |
| LoadClient.Record | Task4/client.py:73-108 | One iteration of the send loop as a definition over stats, rows and frames. `LoadClient.SendEntry` and `LoadClient.TallyPerHost` state what it changes. |
| LoadClient.Replay | Task4/client.py:68 | The stats dict has exactly the four hosts as keys throughout. |
| LoadClient.SendAll | Task4/client.py:68-108 | The send loop produces the stats, log rows and frames that `Replay` specifies. |
| LoadClient.TallyPerHost | Task4/client.py:68-108 | For each host, success plus fail equals the number of its entries, and `bytes_sent` is the sum of their payload sizes (header included, length prefix not). |

## Left out

- **Sockets, binding and UDP/TCP I/O.** The inbound datagram is a parameter. The upstream network is a function parameter. A client exchange is a given outcome.
- **The DNS wire codec** (`from_wire`, `to_wire`, `make_query`), and the EDNS and TSIG parts of `make_response`. Messages are records, and a message stands for its lossless encoding. A datagram that does not decode is the `Malformed` input.
- **Wall-clock timestamps and measured round-trip times.** A trace line is rendered with a given timestamp text. RTT and latency are given as the text the line shows. `round(rtt, 3)` and the float arithmetic are not modelled.
- **Writing `dns_log.csv` and `client_log.csv`.** Writes are assumed to succeed. In the source, a failing write raises inside the surrounding `try`. On the server that abandons the current root or candidate. On the client it counts a failure after a success was already counted. CSV quoting of client rows is not modelled.
- **`KeyboardInterrupt` shutdown and every `print`.** This includes progress output and the error text of a malformed datagram.
- **The shared `dns_cache` dict is two maps.** In the source the glue entries and the `"responses"` table live in one dict (`Task4/server.py:21-22`, `41`). No glue key can equal `"responses"`. Every owner name comes from a reply parsed off the wire (`Task4/server.py:49`, `65`), so it is absolute, and its text form ends with ".". Two separate maps therefore behave exactly like the one dict. The model does not carry as a type that owner texts end with ".". The glue cache is written but never read by the service.
- **`LoadClient.SendAll`: no reading of the reply body.** `client.recv(resp_size)` is not modelled beyond the exchange outcome, and a single `recv(4)` that returns 1–3 bytes is a failure (the unpack raises), as in the code.
- **Latency lists, averages and throughput in the client's summary**, which are floating point.
- **Undecodable query names in the client.** `qname.decode()` outside the `try` would end the script; the model takes names as already decoded text.
- **Exceptions raised by the capture reader mid-file.** In the extractor such an exception ends the run through the outer handler, and only a missing file (`FileMissing`) is modelled.
- **The Mininet topology scripts** (`Task1/topo.py`, `Task2/modified_topo.py`, `Task4/topo_for_task_d.py`). They configure an emulated network and are not part of this model.
- **A property spanning the client and the server together is not stated.** The client frames over TCP while the server reads UDP datagrams, so the two do not compose.

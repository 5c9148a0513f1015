# Fiducia clients: a verified model

Fiducia's repository is a set of clients for one coordination service, the
generators that write them and the contract checks that keep them alike. This
project models the parts of it that carry state, recursion or arithmetic and
proves what they are for. Run `dafny verify dfyconfig.toml` to check it.

## What is modelled

**Lock and semaphore attempts.** `Attempt.dfy` is one acquisition attempt as an
automaton over the requests it sends and the replies it hears; a lock and a
semaphore differ in one flag. `LockClient.dfy` is the client itself, with its poll
loop, back-off, deadline and cancel paths; the server is an arbitrary function, so
its contracts hold against any server. The journal of every call is shown to be
one that the automaton makes, and the automaton to make exactly the journals in
which each request is the one that the replies before it call for, a definition by
itself. `AttemptSystem.dfy` then runs any number of these automata against one
server over a network that loses requests, loses replies and delivers abandoned
requests late. The server is not in the repository: the predicate `Serves` is the
whole of what is assumed of it, taken from README.md:198-209 and the thin methods'
documentation (clients/python/fiducia.py:552-562). It says that a cancel that
answers kills the request id for good, even when it names a raced grant; that
`acquired` comes with a positive token; that a refusal without waiting and a limit
mismatch enqueue nothing; and that any other answer to a cancel, such as
`cancellation_capacity`, may have changed nothing. Request ids are assumed fresh.
Under that contract no attempt that ends without a handle leaves a grant or a
queue entry, then or later; `LostCancelLeavesOrphan` shows that the proviso about
the cancel is needed. Clock and network latency are parameters, and every round
trip takes at least one clock tick.

**Retries.** `Retry.dfy` is the request loop: which failures are retried, what key
every send carries and how often the server can have applied a request, under the
assumption that a marked `not_leader` reply means "not applied". `Ledger.dfy` is
the gateway's replay ledger as the clients' documentation describes it
(README.md:211-218), receiving the sends of the loop late, repeatedly or not at
all, among any other callers' requests.

**Event streams.** `EventStream.dfy` holds two decoders of one format: the
TypeScript loop that cuts a buffer at blank lines, fed any chunks, and the Python
loop over lines. `EventAgreement.dfy` says for every stream exactly when they
yield the same events: in every segment between two bare blank lines no data line
may lose anything to the stripping of line ends, at most one group of lines may
carry data, and no other line of the segment may change that group's event name or
id. `EventLineEnds.dfy` draws the conclusions. They agree on every stream in which
no carriage return stands right before a line feed or at the end. With CR LF
throughout they do not in general: the TypeScript loop never finds a boundary and
folds the whole stream into at most one event, although the block parser itself
unfolds CR LF, and two events of one data line each are enough to tell.
`EventWriter.dfy` writes events, with comments and foreign fields among their
lines, and both decoders return what was written.

**Service discovery.** `Discovery.dfy` is the reducer of the service watch as a
state machine fed arbitrary JavaScript values, and `DiscoveryLaws.dfy` says of
every state and event what one step does, above all which events fail closed.
Collation of ids and conversion of non-numbers to numbers are parameters.

**JSON.** `Json.dfy` and `JsonRoundTrip.dfy` define the Java client's printer and
parser on values whose numbers are lexemes and whose text is 16-bit code units,
and prove the round trip, with any whitespace between tokens. `JavaJson.dfy` is
the class itself, a cursor and a string builder, proved equal to those functions
on every text, malformed ones included. `JsonGrammar.dfy` says which texts are
numbers, what every escape reads as and how each kind of value is printed.
`CBuffer.dfy` is the C client's growable buffer over an allocator that may fail,
with 64-bit wrap-around, and the object builder over it, whose output the Java
parser reads back.

**Schema validation.** `SchemaMeaning.dfy` says declaratively when an instance
satisfies a schema (sections 10.2 and 10.3 of JSON Schema Core 2020-12, section 6
of JSON Schema Validation 2020-12), and `SchemaKeywords.dfy` reads the same off
the members of a schema, keyword by keyword. `Schema.dfy` is the validator, which
appends to a shared error list. It is proved sound and complete and to terminate,
on every document in which no schema comes to be applied again to the instance it
is being applied to (section 9.4.1 of the core). `SchemaGraph.dfy` proves that the
measure used for termination, the instance and then the number of schemas still
reachable on it, exists for exactly those documents; `SchemaLaws.dfy` that the
meaning does not depend on the measure. `Hashing.dfy` models the tuples by which
the validator compares values under Python's loose equality and proves that they
compare values strictly: 1, 1.0 and true differ, whatever section 4.2.2 of the
core says. The condition on documents is about schemas alone, so it also shuts out
a loop that the verdicts of an `if` would keep from being entered; a loop of
references is one that no stack is deep enough for. `SchemaPointer.dfy` writes a
path of keys and indices as a JSON Pointer (RFC 6901) and shows that the validator
follows it, with one exception: "#/" names the root and not the value under the
empty key.

**Templates.** `PathTemplate.dfy` reads path templates, `Emit.dfy` accepts an
operation and replaces its placeholders, and `TemplateMeaning.dfy` evaluates the
generated expressions. The TypeScript substitution always means what the template
says, each placeholder reading its own variable as long as camel case keeps the
variables apart, which `a_b` and `aB` do not. The positional formats of Python and
Rust do so for all arguments exactly when the manifest lists the path parameters
in placeholder order, which nothing in the projection checks. The code looks for
an unopened brace only after the last placeholder, so "/}{a}" is accepted; the
model follows the code.

**Contract tooling.** `Allocator.dfy` chooses one source root for every target.
`Enrichment.dfy` and `EnrichmentLaws.dfy` add metadata to a contract and inspect
it. `Names.dfy` and `NameLaws.dfy` render operation names and lead spellings back
to them; spellings in `_sync` do not lead back, and are the only way in which two
names can share an accepted spelling, as `lock` and `lock_sync` do. `Ratchet.dfy`
records and checks the coverage floor, over the reals.

## Model

| member | source | states |
|---|---|---|
| Attempt.WaitPhaseCancelsOnce | clients/python/locking.py:202-241 | once the wait phase has begun, a finished attempt sent exactly one cancel if it has no handle and none if it has one |
| Attempt.NoAcquireAfterCancel | clients/python/locking.py:202-256 | in every possible journal no acquire follows a cancel |
| Attempt.OneIdentity | clients/python/locking.py:164-256 | every request of an attempt carries one holder, every acquire and cancel one request id, and every acquire after the first waits |
| Attempt.HandleConfirmed | clients/python/locking.py:174-227 | a handle's token is positive and the last reply confirmed it: a renewal of that token, or the only acquire |
| Attempt.ReplayIsTrace | clients/python/locking.py:164-256 | the automaton makes exactly the journals whose every request is the one that the replies before it call for |
| Attempt.TraceOutcome | clients/python/locking.py:174-234 | an attempt stands at a grant exactly when its last reply confirms that token |
| Attempt.FirstReplyDecides | clients/python/locking.py:174-201 | what a finished attempt owes to its first reply: a handle, none, an exception, or a further request |
| LockClient.FiduciaLockClient.AcquireAttempt | clients/python/locking.py:164-241 | against any server the attempt's exchanges are those that its replies call for; it returns a handle exactly when the last reply confirms that token, none or an exception exactly as the entries end; the first reply settles the attempt as promised (a grant at once, no handle without waiting, a limit mismatch raised, otherwise polling); it sleeps at most the wait budget and acquires at most once more than the polls allowed |
| LockClient.FiduciaLockClient.Poll | clients/python/locking.py:202-234 | the poll loop leaves holding exactly the token that the entries confirm, or owes a cancel; leaving quietly means the deadline passed or the retries ran out; the delays before the last poll sum to less than the budget, and the polls stay within the closed bound |
| LockClient.FiduciaLockClient.PollOnce | clients/python/locking.py:212-232 | against the server's own replies: polling goes on exactly after a plain refusal, a grant is renewed and taken with the renewal's lease exactly when the renewal is confirmed, and anything else ends the wait |
| LockClient.FiduciaLockClient.Pause | clients/python/locking.py:204-211 | the sleep is the capped exponential delay cut at the deadline, and the loop stays on schedule |
| LockClient.FiduciaLockClient.CancelWait | clients/python/locking.py:243-256 | a cancel returns normally exactly when the server confirmed it, or when the release of the raced grant went through |
| LockClient.Lock.RenewLease | clients/python/locking.py:51-60 | lease and ttl of a handle change exactly when the server confirms the renewal |
| LockClient.DelaySumClosed | clients/python/locking.py:204-211 | the capped delays in closed form: a ramp of three, then a plateau |
| LockClient.PollBound | clients/python/locking.py:202-220 | the number of polls that the delays allow, in closed form and exact, for every positive interval and every budget |
| LockClient.DefaultPollBound | clients/python/locking.py:141-151 | the default interval and budget allow 18 polls and no more |
| AttemptSystem.RunInv | clients/python/locking.py:164-256 | the invariant over clients, delayed requests and server holds in every state of every run |
| AttemptSystem.ClientsFollowAutomaton | clients/python/locking.py:164-256 | in every run each client is where the automaton is after the journal of the client's own requests and replies in that run |
| AttemptSystem.RunsKeepDiscipline | clients/python/locking.py:164-256 | in every run that journal has no acquire after a cancel, one identity, and one cancel or none as the wait phase demands |
| AttemptSystem.FinalStays | clients/python/locking.py:164-256 | a finished attempt is finished in every later state |
| AttemptSystem.NoOrphan | clients/python/locking.py:164-256 | an attempt that ended without a handle, its cancel (if any) having returned, has neither a grant nor a queue entry then or in any later state |
| AttemptSystem.HandleWasIssued | clients/python/locking.py:174-227 | a handle's token was issued by the server to the attempt's holder |
| AttemptSystem.CleanupReleasesOwnGrant | clients/python/locking.py:243-256 | every release that the server serves, on time or late, names a token issued to an attempt that is itself cleaning up |
| AttemptSystem.LostCancelLeavesOrphan | clients/python/locking.py:243-256 | a run in which the reply and the cancel are lost leaves a grant, so the proviso is needed |
| Retry.Request | clients/python/fiducia.py:198-227 | how often the loop sends, for any outcomes, that every send carries the caller's key or none, and that its result is that of the last send |
| Retry.RejectionIs | clients/python/fiducia.py:299-307 | which replies are retried without a key, member by member of the body |
| Retry.RetriedExactly | clients/python/fiducia.py:298-315 | which failures are retried: transport errors and five statuses when a repeat is safe, else only that reply |
| Retry.IdempotentMethods | clients/python/fiducia.py:109-112 | POST is the one method that is not idempotent |
| Retry.KeyIs | clients/python/fiducia.py:225-227 | of the two spellings of the key the first wins unless it is empty |
| Retry.SendsIsDetermined | clients/python/fiducia.py:198-214 | the specification of the loop fixes the number of sends |
| Retry.KeylessPostAppliedAtMostOnce | clients/python/fiducia.py:198-214 | a POST without a key is applied at most once, and only by the last send |
| Ledger.KeyedRequestHasOneEffect | clients/python/fiducia.py:200-210 | however the sends of a keyed call arrive, among any other requests, the call has at most one effect, and its key exactly one once a send arrives |
| Ledger.OneEffectPerKey | clients/python/fiducia.py:200-210 | the ledger keeps one effect for every key that arrived, and one for every keyless arrival |
| Ledger.KeyedSendsAnswerAlike | clients/python/fiducia.py:200-210 | whichever send gets its reply through, the answer is the same |
| Ledger.KeylessArrivalsAllApply | clients/python/fiducia.py:308-312 | without a key every arrival takes effect |
| Retry.UnmarkedRetryCouldApplyTwice | clients/python/fiducia.py:298-315 | retrying an unmarked failure could apply a request twice, so the exception has to be narrow |
| EventStream.ParseSseBlock | clients/ts/fiducia.ts:1180-1203 | the block parser's loop yields what folding the block's lines yields |
| EventStream.Drain | clients/ts/fiducia.ts:606-613 | the inner loop takes every finished block out of the buffer, so that what is left and what is to come decode to the rest |
| EventStream.WatchTypeScript | clients/ts/fiducia.ts:598-618 | the events do not depend on how the stream was cut into chunks |
| EventStream.WatchPython | clients/python/fiducia.py:242-265 | the line loop dispatches at blank lines and at the end |
| EventWriter.WrittenIsRead | clients/ts/fiducia.ts:1180-1203 | written events come back from both decoders: names, ids, the default name, data pieces joined by line feeds, nothing without data, whatever comments and foreign fields stand among the lines |
| EventWriter.ReadWritten | clients/ts/fiducia.ts:598-618 | the same through the two loops, for every way of cutting the stream |
| EventWriter.OtherForms | clients/python/fiducia.py:257-264 | a data line without the space, or without the colon |
| EventWriter.NoiseIsIgnored | clients/python/fiducia.py:255-264 | comments and other fields change nothing |
| EventAgreement.PyBySegments | clients/python/fiducia.py:242-265 | for every stream, the line loop works segment by segment between the bare blank lines, on the same lines stripped |
| EventAgreement.SegmentAgreesExactly | clients/ts/fiducia.ts:1180-1203 | when the two loops yield the same for one segment, as a condition on its lines |
| EventAgreement.DecodersAgreeExactly | clients/ts/fiducia.ts:598-618 | for every stream, the decoders yield the same events exactly when that condition holds of every segment |
| EventLineEnds.DecodersAgree | clients/ts/fiducia.ts:1180-1203 | they agree whenever no carriage return belongs to a line end, the unterminated last event included |
| EventAgreement.DecodeBoth | clients/python/fiducia.py:242-265 | the exact condition for the two loops themselves, for every way of cutting the stream |
| EventLineEnds.CrLfNeverDispatches | clients/ts/fiducia.ts:606-607 | with CR LF line ends the buffer loop yields at most one event |
| EventLineEnds.CrLfAgreeExactly | clients/ts/fiducia.ts:606-618 | with CR LF throughout, what each loop yields from the lines, and exactly when that is the same |
| EventLineEnds.CrLfDisagrees | clients/python/fiducia.py:242-265 | on a CR LF stream of n one-line events the line loop yields n, so that from two on the decoders differ |
| EventLineEnds.CrLfExample | clients/ts/fiducia.ts:606-607 | they differ on two events with data a and b |
| Discovery.ReadInstances | clients/ts/service-discovery.ts:196-235 | the loop with its set of seen ids accepts exactly the lists of well-formed instances with distinct ids, and sorts them |
| Discovery.RecordParsesBack | clients/ts/service-discovery.ts:201-227 | the record of an instance parses back to it, less a `__proto__` metadata entry, exactly when id and address are not empty and the lease is a non-negative safe integer |
| Discovery.ParsedInstancesOk | clients/ts/service-discovery.ts:196-235 | accepted instances have unique ids and are sorted |
| Discovery.SortSorts | clients/ts/service-discovery.ts:228-234 | sorting yields a sorted permutation |
| Discovery.RunInv | clients/ts/service-discovery.ts:57-194 | unique sorted instances, resync excludes synchronised, the snapshot revision never exceeds the observed one and equals it when synchronised, after any events |
| DiscoveryLaws.ResyncExactly | clients/ts/service-discovery.ts:57-194 | which events demand a resync, for every state and event, and that the state then only loses its synchronisation |
| DiscoveryLaws.UnsynchronizedUntilSnapshot | clients/ts/service-discovery.ts:57-194 | after such an event a replica stays unsynchronised until a snapshot is applied, whatever else arrives |
| DiscoveryLaws.SnapshotStep | clients/ts/service-discovery.ts:93-148 | what a snapshot for this service does: it is refused, stale, or replaces instances and revisions |
| DiscoveryLaws.HintStep | clients/ts/service-discovery.ts:150-194 | what a change event does: another key is ignored, a contradictory one demands a resync, an old revision is ignored, a new one is recorded |
| DiscoveryLaws.OtherStep | clients/ts/service-discovery.ts:57-91 | an event without a kind or with two, an unknown kind about services and `unavailable` demand a resync; an event of another scope is ignored |
| DiscoveryLaws.ParsedIsDescribed | clients/ts/service-discovery.ts:201-227 | which values describe an instance, and which one |
| Discovery.SnapshotTestRedundant | clients/ts/service-discovery.ts:176-183 | the second half of the staleness test never changes an outcome |
| Discovery.InstancesOfLastSnapshot | clients/ts/service-discovery.ts:93-148 | the instances are always those of the last accepted snapshot |
| Discovery.ObservedIsMaximum | clients/ts/service-discovery.ts:123-194 | after any run the observed revision is the maximum of the well-formed events' revisions |
| Discovery.MaximumIsUnique | clients/ts/service-discovery.ts:254-258 | that maximum depends on neither order nor duplication |
| Discovery.ReplicasConverge | clients/ts/service-discovery.ts:93-148 | replicas that observed the same maximum, or the same events in any order, are equal after one more snapshot without a revision |
| JavaJson.Reader.SkipWs | clients/java/Fiducia.java:690-692 | the cursor stops at the first unit that is not whitespace |
| JavaJson.Reader.ReadString | clients/java/Fiducia.java:661-683 | for every text the scanner agrees with the string parser, cursor included, and never reads out of range |
| JavaJson.Reader.ReadNumber | clients/java/Fiducia.java:685-689 | takes the longest run of number units and fails when it is not a number |
| JavaJson.Reader.ReadValue | clients/java/Fiducia.java:621-633 | for every text the cursor parser agrees with the specification, failing where it fails |
| JavaJson.Reader.ReadObject | clients/java/Fiducia.java:634-648 | members in order, a repeated key replacing the earlier value in place |
| JavaJson.Reader.ReadArray | clients/java/Fiducia.java:649-660 | items in order up to the closing bracket |
| JavaJson.ParseText | clients/java/Fiducia.java:556-561 | the entry point is the specified parser on every text |
| JsonGrammar.NumberParsesExactly | clients/java/Fiducia.java:685-689 | a text of number units parses exactly when it is a sign, digits with a point anywhere among them, and an exponent, each part as it may be missing |
| JsonGrammar.EscapeIsRead | clients/java/Fiducia.java:667-680 | what every two-unit escape reads as |
| JsonGrammar.HexIsRead | clients/java/Fiducia.java:678 | four hexadecimal digits of either case are the unit they count |
| JsonGrammar.SignedHexIsNumber | clients/java/Fiducia.java:678 | a sign and three digits are taken as well, negative ones wrapping to 16 bits |
| JavaJson.WriteString | clients/java/Fiducia.java:601-619 | appends the quoted and escaped text and nothing else |
| JavaJson.Write | clients/java/Fiducia.java:569-600 | appends the printed value and nothing else |
| JavaJson.Stringify | clients/java/Fiducia.java:563-567 | the entry point prints the value |
| JsonGrammar.OneUnit | clients/java/Fiducia.java:601-619 | the literal of every single unit |
| JsonGrammar.UnitsInRow | clients/java/Fiducia.java:601-619 | a longer literal is that of its units in a row |
| JsonGrammar.SmallestTexts | clients/java/Fiducia.java:569-575 | the constants and the empty string, array and object |
| JsonGrammar.TwoItems | clients/java/Fiducia.java:587-595 | how items are separated |
| JsonGrammar.OneField | clients/java/Fiducia.java:576-586 | a member is its name, a colon and its value |
| JsonGrammar.TwoFields | clients/java/Fiducia.java:576-590 | how members are separated |
| JsonRoundTrip.StringRoundTrip | clients/java/Fiducia.java:601-683 | wherever a printed string stands in a text, parsing there gives it back and stops right behind it |
| JsonRoundTrip.DocRoundTrip | clients/java/Fiducia.java:621-692 | wherever a document with any whitespace between its tokens stands, parsing there gives its value and stops right behind it |
| JsonRoundTrip.ParseDocument | clients/java/Fiducia.java:556-561 | the entry point accepts any whitespace in front as well |
| JsonGrammar.WhitespaceIsBlank | clients/java/Fiducia.java:690-692 | which units are whitespace: those of section 2 of RFC 8259 and twenty-one others |
| JsonRoundTrip.PrintParse | clients/java/Fiducia.java:556-692 | parsing what was printed gives the value back, for every value with number lexemes and distinct keys |
| JsonRoundTrip.PrintInjective | clients/java/Fiducia.java:563-619 | two values with one printed text are equal |
| CBuffer.Sbuf.Reserve | clients/c/fiducia.c:58-79 | on success there is room for the bytes and a NUL, within twice the need or 64; on failure the error latches and nothing else changes; bytes survive the move |
| CBuffer.GrowTo | clients/c/fiducia.c:68-73 | doubling reaches the need within a factor of two, or detects the 64-bit wrap, which takes more than half the address space |
| CBuffer.Sbuf.PutN | clients/c/fiducia.c:81-86 | appends exactly the bytes, NUL-terminated, or latches the error and keeps the contents; with memory it succeeds |
| CBuffer.Sbuf.PutJsonString | clients/c/fiducia.c:112-138 | appends the same literal as the Java printer, keeping what was there when it fails on the way |
| CBuffer.Jobj.Key | clients/c/fiducia.c:154-158 | a comma in front of every key but the first |
| CBuffer.Jobj.PutStr | clients/c/fiducia.c:160-163 | the object gains the string field, a null pointer reading as an empty string |
| CBuffer.Jobj.PutLong | clients/c/fiducia.c:165-168 | the object gains the integer field |
| CBuffer.Jobj.PutBool | clients/c/fiducia.c:175-178 | the object gains the boolean field |
| CBuffer.Jobj.Finish | clients/c/fiducia.c:187-194 | the finished text is that of the object with all its fields, and with distinct keys the Java parser reads those fields back; without a text there was an error |
| CBuffer.DecimalIsLexeme | clients/c/fiducia.c:94-98 | a printed integer is a number lexeme of the parser |
| CBuffer.DecimalIsWorth | clients/c/fiducia.c:94-98 | the positional value of a printed integer is the integer, without leading zeros and with a minus exactly when it is negative |
| CBuffer.DigitsInjective | clients/c/fiducia.c:94-98 | different numbers print differently |
| CBuffer.FinishedObjectReadsBack | clients/java/Fiducia.java:556-561 | the text of an object of such fields with distinct keys parses back to them |
| Schema.Validator.IterErrors | contract/bin/jsonschema_mini.py:90-94 | on every well-founded document the error list is empty exactly when the instance satisfies it |
| Schema.Validator.IsValid | contract/bin/jsonschema_mini.py:96-97 | the verdict is exactly satisfaction |
| Schema.Validator.Validate | contract/bin/jsonschema_mini.py:100-166 | terminates, only appends to the list, appends nothing exactly when the instance is valid, whatever the path and the list, and only at the path or below it; unknown keywords accumulate |
| SchemaKeywords.ValidExactly | contract/bin/jsonschema_mini.py:100-249 | the meaning of a schema read off its members one by one: what every assertion asks of the instance and what every applicator asks of which schema and which part, with siblings where they matter |
| SchemaKeywords.SatisfiesExactly | contract/bin/jsonschema_mini.py:90-97 | the same for the document itself, so that the validator's verdict is that reading |
| SchemaKeywords.AssertionsExactly | contract/bin/jsonschema_mini.py:123-135 | the assertions hold together exactly when each holds by itself |
| SchemaKeywords.Alone | contract/bin/jsonschema_mini.py:173-223 | a keyword that applies no schema asks, alone in a document, what it asks among others |
| SchemaKeywords.TypeMeans | contract/bin/jsonschema_mini.py:26-35 | what `type` demands for every name and list of names: an integral float is an integer, a boolean is no number, an unknown name never holds |
| SchemaKeywords.KnownExactly | contract/bin/jsonschema_mini.py:37-46 | which keywords are known, those that apply schemas, assert or annotate |
| Schema.Validator.SubErrors | contract/bin/jsonschema_mini.py:168-171 | a separate list, empty exactly when valid |
| Schema.Validator.ResolvePointer | contract/bin/jsonschema_mini.py:56-71 | the loop resolves a reference as a walk from the root |
| SchemaPointer.PointerFollows | contract/bin/jsonschema_mini.py:56-71 | a path of keys and indices, written as a pointer with its escapes, leads to the value at that path or fails where it does, the root of a path of one empty key excepted |
| SchemaPointer.TokenReturns | contract/bin/jsonschema_mini.py:66 | unescaping undoes escaping for every key |
| SchemaPointer.FromTheEnd | contract/bin/jsonschema_mini.py:67-68 | a negative token counts from the end of a list |
| SchemaPointer.EmptyKeyIsRoot | contract/bin/jsonschema_mini.py:60-64 | "#/" is the root |
| Schema.Validator.Choose | contract/bin/jsonschema_mini.py:137-149 | `anyOf` and `oneOf` report exactly when no branch, or not one branch, accepts |
| Schema.Validator.Branches | contract/bin/jsonschema_mini.py:154-157 | the condition selects one schema, a missing one asking nothing |
| Schema.Validator.ValidateNumber | contract/bin/jsonschema_mini.py:181-193 | reports exactly when a bound is violated |
| Schema.Validator.ValidateItems | contract/bin/jsonschema_mini.py:205-213 | prefix, remaining items and `contains`, exactly |
| Schema.Validator.ValidateProperties | contract/bin/jsonschema_mini.py:225-249 | properties, patterns, names and additional properties, exactly and in any order of iteration |
| Schema.OnlyOne | contract/bin/jsonschema_mini.py:145-149 | the list of passing branches has length one exactly when exactly one branch accepts |
| Sequences.SetSize | contract/bin/jsonschema_mini.py:200-203 | comparing a list's length with its set's tests that its items are distinct |
| SchemaGraph.RankedExactlyWhenWellFounded | contract/bin/jsonschema_mini.py:100-166 | the termination measure exists exactly for documents without a cycle on one instance |
| SchemaGraph.SelfReferenceIsNotWellFounded | contract/bin/jsonschema_mini.py:114-120 | a schema that refers to itself is not such a document |
| SchemaGraph.ReferenceLoopNeverReturns | contract/bin/jsonschema_mini.py:114-120 | among schemas that refer to one another validation returns within no depth of calls, for any instance |
| SchemaGraph.SelfReferenceNeverReturns | contract/bin/jsonschema_mini.py:114-120 | for one, the document that refers to itself |
| SchemaGraph.ThenAloneIsWellFounded | contract/bin/jsonschema_mini.py:154-157 | a loop through `then` without `if` is none |
| SchemaLaws.OneMeaning | contract/bin/jsonschema_mini.py:100-249 | validity does not depend on how termination is measured |
| Hashing.HashesAreFaithful | contract/bin/jsonschema_mini.py:74-81 | the comparison tuples are loosely equal exactly when the values are strictly equal, whatever the order of keys |
| PathTemplate.PathPlaceholders | rpc/generator/src/main.rs:366-402 | the scanning loop yields the template's names or the first error |
| PathTemplate.NamesAre | rpc/generator/src/main.rs:378-387 | which placeholder names are well formed, character by character |
| PathTemplate.ParseExactly | rpc/generator/src/main.rs:366-402 | a path is accepted exactly when it is literals with distinct well-formed names between them, and then in one way |
| PathTemplate.StrayBraceIsAccepted | rpc/generator/src/main.rs:394-400 | an unopened brace in front of a placeholder is let through |
| Emit.Derive | rpc/generator/src/main.rs:262-315 | an operation is accepted exactly when names are declared once, placed, required in the path, and the same as the placeholders |
| Emit.EmitPath | generate.py:84-89 | the emitters' loop replaces the placeholders of the path parameters one after another |
| Emit.SequentialIsSimultaneous | generate.py:84-89 | replacing one after another in any order fills exactly the matching gaps and never captures inserted text |
| TemplateMeaning.FormattedMeans | generate.py:84-93 | the positional format puts the k-th declared parameter into the k-th placeholder |
| TemplateMeaning.ArgumentsInOrder | generate.py:84-93 | the positional clients request the meant path for all arguments exactly when parameters are declared in placeholder order |
| TemplateMeaning.OrderIsNotChecked | rpc/generator/src/main.rs:299-309 | an accepted operation may declare them in another order |
| TemplateMeaning.SubstitutionInPlace | generate.py:135-137 | whatever the order of declaration, the template literal puts the variable named after a placeholder into its place |
| TemplateMeaning.ArgumentsSuppliable | generate.py:53-59 | all arguments can be supplied through the variables exactly when no two placeholders share one |
| TemplateMeaning.SubstitutionMeans | generate.py:135-137 | with variables kept apart the template literal requests the meant path for all arguments |
| TemplateMeaning.CamelIsBraceFree | generate.py:53-59 | a placeholder's variable has no brace, as the substitution needs |
| TemplateMeaning.CamelIsCamel | generate.py:53-59 | on names of lower-case words, the variable is the camel spelling that the surface check expects |
| TemplateMeaning.MarkersAre | generate.py:86-87 | the marker that a positional format fills |
| TemplateMeaning.CamelCollides | generate.py:53-59 | camel case does not keep every two placeholders apart |
| Allocator.ChooseTargetDirs | scripts/harden_client_contract.py:643-668 | every accepted choice is inside the root, isolated, preferred when available and otherwise canonical; with distinct canonical directories inside the root every manifest is accepted |
| Allocator.PlacesDistinct | scripts/harden_client_contract.py:643-668 | the chosen places are pairwise distinct |
| Allocator.HomeUnclaimed | scripts/harden_client_contract.py:657-666 | no earlier target can hold a later one's canonical directory, so the collision error is unreachable |
| Enrichment.Visit | scripts/harden_client_contract.py:488-540 | the walk yields the enriched tree and reports a change exactly when there is one, or raises exactly when a kind cannot be hashed |
| Enrichment.SetDefaults | scripts/harden_client_contract.py:493-532 | the defaults of one dictionary, and the changed flag exact |
| EnrichmentLaws.DefaultsExactly | scripts/harden_client_contract.py:493-532 | exactly the declarations are documented and exactly the callables get behaviour and auth, with which values and under which identifier |
| EnrichmentLaws.EnrichedInPlace | scripts/harden_client_contract.py:488-540 | whatever stands anywhere in the tree is enriched for its own path |
| EnrichmentLaws.LeftAloneStays | scripts/harden_client_contract.py:532-534 | what stands under the three exempt keys is never touched |
| EnrichmentLaws.EnrichExtends | scripts/harden_client_contract.py:493-532 | no existing value is altered and only the five metadata keys are added, at any depth |
| EnrichmentLaws.EnrichIsIdempotent | scripts/harden_client_contract.py:488-540 | enriching twice is enriching once |
| EnrichmentLaws.WalkableStays | scripts/harden_client_contract.py:502-506 | enrichment never makes the walk raise, nor stops it from raising |
| EnrichmentLaws.Inspect | scripts/harden_client_contract.py:575-594 | the inspection finds nothing exactly when no dictionary contradicts itself |
| EnrichmentLaws.NodeVerdictIs | scripts/harden_client_contract.py:575-594 | when a dictionary contradicts itself, key by key |
| EnrichmentLaws.RaisesExactly | scripts/harden_client_contract.py:502-506 | when a dictionary makes the walk raise |
| EnrichmentLaws.VerdictStays | scripts/harden_client_contract.py:488-594 | enrichment neither brings in nor hides a behaviour or deprecation finding |
| EnrichmentLaws.UndecidedIsClean | scripts/harden_client_contract.py:488-594 | a tree without behaviour or stability keys has no such finding after enrichment |
| Names.AcceptableNames | contract/bin/check_surface.py:67-91 | the set built is every rendering with every suffix |
| NameLaws.SpellingsAre | contract/bin/check_surface.py:48-64 | the snake, kebab, camel and Pascal spellings of a name, word by word |
| NameLaws.AcceptedExactly | contract/bin/check_surface.py:67-91 | what is accepted for a name in each style: three spellings in all, hyphens only in their own, and six suffixes |
| NameLaws.WordsOfJoin | contract/bin/check_surface.py:41-45 | splitting a joined name gives its words back |
| NameLaws.SpellingLeadsBack | contract/bin/derive_contract.py:61-67 | every snake, camel, Pascal or kebab spelling of a clear name, with any suffix but `_sync`, canonicalises to it |
| NameLaws.LeadsBackExactly | contract/bin/derive_contract.py:61-67 | all spellings of a name lead back exactly when capitals set its words apart and the last word is not `async` |
| NameLaws.DotsLeadBack | contract/bin/derive_contract.py:61-67 | dots lead back as well |
| NameLaws.SpellingsAreDistinct | contract/bin/derive_contract.py:61-67 | two clear names never share such a spelling |
| NameLaws.SuffixLeadsBackExactly | contract/bin/derive_contract.py:61-67 | of the accepted suffixes exactly `_sync` does not lead a clear name's spelling back |
| NameLaws.SyncLeadsOn | contract/bin/derive_contract.py:61-67 | a `_sync` spelling leads to the name with the word `sync` after it |
| NameLaws.AcceptableLeadsBack | contract/bin/check_surface.py:67-91 | every accepted spelling of a clear name leads back to it, or is a `_sync` one and leads to the other name |
| NameLaws.SyncCollides | contract/bin/check_surface.py:67-91 | a name and the same with `sync` after it share an accepted spelling |
| NameLaws.SharedOnlyBySync | contract/bin/check_surface.py:67-91 | no other two clear names share any |
| NameLaws.LockSyncCollides | contract/bin/check_surface.py:67-91 | for instance `lock` and `lock_sync` |
| Ratchet.UnchangedIsNeverFlagged | contract/bin/derive_contract.py:561-566 | a floor just recorded never flags the client it was measured on |
| Ratchet.FloorExactly | contract/bin/derive_contract.py:561-566 | the recorded floor in whole numbers: the share rounded to a tenth and truncated, for all counts |
| Ratchet.FlaggedExactly | contract/bin/check_surface.py:278-298 | when a floor flags, in whole numbers |
| Ratchet.WholeClientFlaggedExactly | contract/bin/check_surface.py:278-298 | a fully conforming client is flagged exactly for losing more than one operation in two thousand |
| Ratchet.AnyLossIsFlagged | contract/bin/check_surface.py:278-298 | every loss is flagged exactly when there are fewer than 2000 operations |
| Ratchet.FlagsGrow | contract/bin/check_surface.py:278-298 | losing more never clears a flag |

## Left out

- HTTP, TLS, redirects, timeouts, header setting and the per-endpoint wrappers of every client.
- The server itself: consensus, leases, promotion order and fencing. Only its contract appears, as an assumption.
- The Go, TypeScript and Rust lock clients, whose protocol is the same up to exceptions and per-key tokens.
- Interrupts between two statements of the lock client, and the retry loop underneath its requests: each request is one exchange that answers or does not.
- Stack depth of the recursive walks and parsers, and number formatting beyond integers.
- Schema.Validator.Validate: requires keyword operands of the types that the meta-schema prescribes (any hashable items for `required`); the code raises for others only once an instance brings it to use them, and `minLength: "3"` on a number, say, is outside the model; regular expressions and `multipleOf` are parameters; which errors are listed, beyond whether there are any and below which path, is not specified.
- Schema.Validator.ValidateProperties: dictionaries are maps walked in an arbitrary order, so the order of the errors is not modelled.
- EventAgreement.DecodersAgreeExactly: text is what the decoders see after UTF-8 decoding, a byte order mark is not modelled, and event data stays raw text.
- JsonRoundTrip.PrintParse: numbers are lexemes that the parser accepts, not doubles, and non-ASCII hexadecimal digits are not modelled.
- CBuffer.Jobj.PutLong: `jobj_double`, `jobj_raw` and the overflow of the field counter are not modelled; bytes are code units, so the read-back is about ASCII.
- TemplateMeaning.FormattedMeans: literal text without quotes, escapes or marker characters; other text is a syntax or format error of the generated language.
- TemplateMeaning.SubstitutionInPlace: literal text without backticks, backslashes or carriage returns, and variable names without braces.
- Ledger.KeyedRequestHasOneEffect: the gateway decides each arrival at once, so two sends that are being applied at the same time are not modelled.
- SchemaGraph.RankedExactlyWhenWellFounded: whether validation returns on a document that is not well founded is shown for loops of references only.
- Emit.Derive: the checks of keys, HTTP methods and duplicates across operations, the sorting of the manifest and its digest.
- Enrichment.Visit: dictionaries are values and not objects updated in place, so aliasing between them is not modelled, nor the partial update before an exception; the cleaning of identifier parts is a parameter.
- EnrichmentLaws.Inspect: the other checks of the same function (duplicate names, unresolved types, missing declarations, duplicate identifiers).
- Allocator.ChooseTargetDirs: the search for an existing directory and path resolution are functions of the target and the path.
- Names.AcceptableNames: four of the six styles, ASCII letters, no symbol prefix and no aliases.
- Ratchet.UnchangedIsNeverFlagged: real arithmetic instead of floating point, and no waivers, optional operations or arity errors between recording and checking.
- Metadata records of the service-discovery client other than instances, the reasons that its results name, and the transport that feeds it.

# platform-kit: a verified model

A Dafny model of the parts of platform-kit that carry state, retries or recursion, and proofs about
them. `dafny verify dfyconfig.toml` checks everything.

Five areas are modelled.

**The time-travel ledger** (`timetravel/`). `Ledger` is the snapshot table: one call of
`RecordEntity` is a close step and an insert step, each of which can fail; the reader picks the newest
row in force. `LedgerLaws` compares the reader with the plain list of calls, for every pattern of
failures and every interleaving with other entities. `Json` is the decoded JSON tree with its compact
encoding, `Diff` the recursive difference (loops, byte comparison and sort included), and `DiffLaws`,
`DiffEntries`, `DiffPaths`, `DiffClashes` and `Patch` say what the list of differences means: where it has
entries and what they report, that it is empty exactly on equal trees, that it inverts, that its entries
never overlap, exactly which keys make two of them report one path, and that applied in any order it
rebuilds the new tree. `SnapshotDiffs` puts reader, decoder and
difference together. `LedgerRegister` reads the table after any sequence of calls as one register per
entity, `LedgerReads` reads it after any interleaving of overlapping calls. `KafkaLedger` is the recorder
that publishes and the consumer that writes. `KafkaRuns` runs them over the partitions of a topic, with
crashes, redelivery, failing statements and the statements of the partitions in any order; `KafkaShown`
says what an entity shows in the end when its messages share a partition, `KafkaSpread` when they do not
or the group starts behind them, and `KafkaRecords` what that means for the calls that were recorded.

**Kafka delivery and schemas** (`kafka/`). `Consumer` is the fetch, decode, validate, retry,
dead-letter, commit loop; `ConsumerRuns` runs it over a log with crashes and lost commits. `Schema` is
the validator, `SchemaErrors` which errors it reports and where, `Numbers` what number texts stand for, `SchemaCache` its cache under concurrent
validations and registrations, `Publisher` the envelope, its schema and the publisher, and `Replay` the
bounded replay. `EventTypes` has the grammar of event types, topics and the event registry,
`DeadLetters` the dead-letter producer.

**The rate limiter** (`middleware/ratelimit.go`) is `RateLimit`, with what its
decisions come to in `RateLaws`. **The time-windowed caches** are
`Inbound` (`webhook/inbound/inbound.go`) and `Jwks` (`authjwt/validator.go`). **Hot reload**
(`config/hot_reload.go`) is `HotReload` on configuration values and `LiveConfig` in memory, where a
pointer leads to a cell that the walk writes to and a tagged pointer ends up shared with the source.

What the model takes as given comes in as a parameter: whether a database or broker operation succeeds,
what a handler answers, what the clock reads, how a schema text parses. Times are numbers that do not
run backwards unless a lemma says otherwise.

## Model

| member | source | states |
|---|---|---|
| Json.EncodeIsInjective | timetravel/diff.go:226-246 | two trees with the same compact encoding are the same tree (RFC 8259, sections 3 to 7) |
| Json.ReadValue | timetravel/diff.go:230-245 | an encoding followed by text that cannot continue it is read back in one way only, value and rest |
| Json.ReadString | timetravel/diff.go:230-245 | a quoted, escaped string ends at its closing quote and nowhere else |
| Diff.JsonEqual | timetravel/diff.go:228-246 | comparing encodings byte by byte answers true exactly on equal trees |
| Diff.DiffValues | timetravel/diff.go:152-174 | the recursive comparison computes the specified list of entries |
| Diff.DiffMaps | timetravel/diff.go:176-204 | the loop over the union of keys collects the entries of every key, in the order of the keys: a proper prefix first, else by the first character that differs |
| Diff.DiffSlices | timetravel/diff.go:206-224 | the loop over positions collects the entries of every position, missing ones as added or removed |
| Diff.DiffPayloads | timetravel/diff.go:140-144 | the result has exactly the entries of the difference, each as often, and no entry before one whose path is a proper prefix of its own or smaller at the first character that differs |
| Diff.InsertByPath | timetravel/diff.go:142 | one step of the sort keeps a list in that order and adds one entry |
| Text.LessIff | timetravel/diff.go:142-142 | the comparison of texts, character by character, decides exactly that order |
| DiffEntries.EntriesAreTheDifferences | timetravel/diff.go:152-271 | a place has an entry exactly when the documents differ there, have the same kind everywhere above it and are not both objects or both arrays there; the entry carries the old and the new value, null for nothing, and is an addition, a removal or a change by what was there and what is |
| DiffClashes.PathsAreSpelledOut | timetravel/diff.go:206-260 | every entry reports its first key or position, then `.key` or `[position]` for each further step, and `$` for the root |
| Text.ItoaIsDecimal | timetravel/diff.go:213-213 | positions are written in decimal |
| DiffLaws.EmptyIffEqual | timetravel/diff.go:152-224 | a difference is empty exactly when the two trees are equal |
| DiffLaws.SwappingArguments | timetravel/diff.go:152-271 | swapping the arguments keeps every path and exchanges old and new, added and removed |
| DiffPaths.EntriesArePrefixFree | timetravel/diff.go:152-224 | no entry's place lies at or below another entry's place |
| DiffPaths.PathsAreRendered | timetravel/diff.go:206-260 | every entry reports the dotted and bracketed text of its place; the root reports `$` |
| DiffPaths.RenderIsInjective | timetravel/diff.go:248-253 | places whose keys are non-empty and free of `.` and `[` have different texts |
| DiffClashes.ContinuesIff | timetravel/diff.go:206-253 | what any steps below a place add to its path is any number of bracketed numerals, then nothing or a dot and anything; and every such text is added by some steps |
| DiffClashes.ReadsBelowIff | timetravel/diff.go:206-253 | so whether a key reads like a place below its sibling can be decided from the two keys |
| DiffClashes.SameTextBelow | timetravel/diff.go:206-253 | places below two siblings have one text only if one of the siblings reads like a place below the other |
| DiffClashes.SiblingsCollideIff | timetravel/diff.go:176-253 | whatever the place: two keys of its objects can have entries below them that report one path exactly when one key reads like a place below the other, or the place's own path is empty and one key is |
| DiffClashes.PathsAreDistinct | timetravel/diff.go:140-253 | when no object that both documents have holds two such keys, no two entries of the difference report the same path |
| DiffClashes.SortedResultIsUnique | timetravel/diff.go:140-144 | an unstable sort by path then still has a single result |
| DiffClashes.PlainKeysNeverClash | timetravel/diff.go:248-253 | keys that are not empty and hold no `.` and no `[` are never such a pair |
| Patch.DiffIsLosslessInAnyOrder | timetravel/diff.go:140-224 | applying the entries to the old tree, in any order, yields the new tree exactly when no value that both sides have becomes null |
| Patch.NullFreeTargetIsReached | timetravel/diff.go:140-224 | for every old tree and null-free new tree the entries, in any order, yield the new tree |
| Patch.ApplyPerChild | timetravel/diff.go:176-224 | entries below a node act on each child separately, so only their order within a child can matter |
| Patch.EmbedIsInjective | timetravel/diff.go:140-144 | the trees that patches work on tell JSON trees apart |
| Patch.SwappedEntriesUndo | timetravel/diff.go:140-271 | the exchanged entries lead back from the new tree to the old one, in any order, exactly when no value comes from null |
| Ledger.ChangeContextFromContext | timetravel/recorder.go:99-110 | author and reason are the installed ones; without any, or without a reason, the nil author and the system, or the system, stand in |
| Ledger.GORMRecorder.RecordEntity | timetravel/recorder.go:149-191 | a refused call leaves the table alone; any other ends the open rows of the entity, if the close succeeds, appends one row with the payload, times, service, author and reason, if the insert does, and reports only a failed insert |
| Ledger.RunOneCall | timetravel/recorder.go:160-190 | a failed close does not stop the insert: the new row is last, and just the open rows of the entity are ended |
| Ledger.Newest | timetravel/diff.go:79-83 | the row found is of the entity, in force, and none in force started later; none is found exactly when none is in force |
| Ledger.GORMRecorder.LoadSnapshotAt | timetravel/diff.go:74-91 | not found exactly when the database answers and no row of the entity is in force; otherwise a row in force that none in force started later than, or the failure |
| Ledger.EntitiesAreIndependent | timetravel/recorder.go:162-190 | in any interleaving of steps, an entity's rows are those its own steps produce |
| LedgerLaws.TableIsClosedForm | timetravel/recorder.go:160-190 | after any run of calls there is one row per successful insert, ended by the first successful close of a later call |
| LedgerLaws.ReaderAgreesWithLog | timetravel/diff.go:74-91 | with any failures, reading at t gives the latest payload inserted by t, and nothing when a later call by t closed without inserting |
| LedgerLaws.ReaderBeforeFirstInsert | timetravel/diff.go:84-87 | before the first successful insert nothing is found |
| LedgerLaws.InterleavedReaderAgreesWithLog | timetravel/diff.go:74-91 | the same with the steps of other entities in between: found exactly when the latest insert was not closed since |
| LedgerLaws.WindowsOverlapIff | timetravel/recorder.go:162-171 | two windows of one entity have a common instant exactly when every close between them failed |
| LedgerLaws.TableIsDisjoint | timetravel/recorder.go:162-190 | when no close fails, windows of one entity are disjoint and at most the last row is open |
| LedgerLaws.WindowsAbut | timetravel/recorder.go:162-190 | when nothing fails, each window ends where the next starts and the last is open |
| LedgerLaws.RecordLeavesOthersAlone | timetravel/recorder.go:163-166 | recording one entity changes no row of another |
| LedgerLaws.OpenRowsAreCounted | timetravel/recorder.go:160-190 | for the steps of any calls in any interleaving, the open rows of an entity are its successful inserts since its last successful close |
| LedgerLaws.AtMostOneOpenRowIff | timetravel/recorder.go:160-190 | an entity never has two open rows exactly when a successful close of it lies between any two of its successful inserts |
| LedgerLaws.OverlappingCallsLeaveTwoOpenRows | timetravel/recorder.go:160-185 | any two calls for one entity that both close before either inserts leave two open rows, whether or not the closes succeed |
| LedgerLaws.WindowIsEmptyIff | timetravel/recorder.go:160-185 | in any interleaving a row ends at the first successful close after its insert, and is in force at no time exactly when that close carries a time up to its own start |
| LedgerReads.RowsAreFinal | timetravel/recorder.go:160-190 | whatever the order of the statements of any calls, the table holds the rows of the successful inserts, each ended by the first successful close of its entity after it |
| LedgerReads.ReaderInAnyInterleaving | timetravel/diff.go:74-91 | for calls that overlap in any way, with any clock readings and failures, the reader finds the row in force that started last, and nothing exactly when none is in force |
| LedgerReads.ReaderFindsIff | timetravel/diff.go:74-91 | an insert, the latest or any other, is what the reader finds at a time exactly when it has started and not ended by then and every insert started after it has ended |
| LedgerReads.ReaderAtEnd | timetravel/diff.go:74-91 | read when all times have passed, an entity shows the row that started last of those that no successful close followed |
| SnapshotDiffs.DiffSnapshots | timetravel/diff.go:97-134 | errors (no loader, no identity, a failed or empty read, an undecodable payload) come in the order of the checks; otherwise the result is the sorted difference of the two payloads read |
| SnapshotDiffs.SnapshotDiffLeadsFromStateToState | timetravel/diff.go:93-134 | whatever failed and whatever else was recorded, the entries for two times lead from the state recorded by the first to the state recorded by the second, exactly when nothing became null |
| KafkaLedger.KafkaRecorder.RecordEntity | timetravel/kafka_recorder.go:74-102 | exactly one snapshot message is written when the publisher takes the event and the write succeeds, and none otherwise; its type, topic, key and every member of its data are spelled out |
| KafkaLedger.SnapshotConsumer.HandleEvent | timetravel/kafka_recorder.go:130-167 | the sink runs one call for what the event carries, and is untouched when kind, id, metadata or payload do not decode |
| KafkaLedger.HandleReads | timetravel/kafka_recorder.go:134-160 | what is taken from an event, member by member: nothing without metadata that names kind and id, and the system and the nil author where reason or author do not come through |
| KafkaLedger.UuidRoundTrip | timetravel/kafka_recorder.go:33-33 | the printed form of an author id parses back to it, and so do its forms in braces, after `urn:uuid:` and without hyphens |
| KafkaLedger.ParseUuidIff | timetravel/kafka_recorder.go:33-33 | a text parses to an id exactly when it spells its digits, in either case, bare, with hyphens, with one more character on each side, or after `urn:uuid:` |
| KafkaLedger.UuidTextIs | timetravel/kafka_recorder.go:74-89 | an author is printed as its digits in lower case, with hyphens in the four places |
| KafkaLedger.RecordedSnapshotsArriveUnchanged | timetravel/kafka_recorder.go:82-159 | kind, id, payload and change context come out of the event as they were put in |
| LedgerRegister.WriteShows | timetravel/recorder.go:160-190 | an inserted row is what the reader finds from then on, even when the close before it failed |
| LedgerRegister.TableShowsRegister | timetravel/recorder.go:160-190 | after any sequence of calls with any failures the reader finds, per entity, one register: an insert sets it, a close alone clears it, a call that fails altogether leaves it |
| KafkaRuns.OneCallIsTwoStatements | timetravel/kafka_recorder.go:160-166 | the close and the insert that a message sends are the two statements of one call of the sink |
| KafkaRuns.EveryRunKeepsInv | kafka/consumer.go:214-301 | at every moment of every run over any number of partitions, whose statements interleave, with crashes anywhere (also between close and insert), lost commits, redelivery and failing statements: per partition and entity the sink is at work, or a message is sure to come, or the last statement was the insert of the furthest processed message, or the close of one past it; and every insert is of a processed message, later than the partition's inserts before it |
| KafkaShown.HomeShowsIff | timetravel/kafka_recorder.go:104-167 | when an entity's messages share a partition, it shows what the last statement for it inserted, nothing if that closed it, and if it failed what was shown before |
| KafkaShown.ConsumedLogIsShown | timetravel/kafka_recorder.go:104-167 | when that partition is consumed and inserts succeed, the entity shows its last message, or nothing if it has none, provided the group did not start past that message |
| KafkaShown.ShownIffSeen | kafka/consumer.go:25-25 | for groups that may have started past it (after a crash with nothing committed): the last message, if it says something new, is shown exactly when it was processed |
| KafkaShown.ShowsItsLastMessageIff | timetravel/kafka_recorder.go:160-166 | when inserts can fail too, a processed last message is shown exactly when its last insert succeeded or the table already showed the same before that |
| KafkaSpread.AnyPartitionCanBeLast | kafka/publisher.go:81-90 | however messages are spread over partitions, there is a complete run that ends up showing the last message of the partition of choice |
| KafkaSpread.SomeLastIsShown | timetravel/kafka_recorder.go:104-167 | for groups that start at the first offset, every complete run ends up showing the last message of some partition, however the closes and inserts of the partitions interleave |
| KafkaSpread.LastIsShownIff | kafka/publisher.go:81-90 | the publisher's balancer ignores message keys; for messages spread over partitions every complete run ends up showing c exactly when all partitions that have messages of the entity end with c and, if there is a c, the group starts at the first offset |
| KafkaSpread.SkippedLogsAreEmpty | kafka/consumer.go:25-25 | a group that starts at the last offset can have everything consumed and nothing written |
| KafkaSpread.CutLosesTheEntity | kafka/consumer.go:25-25 | and it can leave an entity that was written without a snapshot although no statement fails: by a crash between close and insert of the second message, before anything is committed |
| KafkaRecords.RecordIsCaptured | timetravel/kafka_recorder.go:74-167 | what the publisher accepts under the shared registry the consumer accepts too, and its sink records that entity, payload and context |
| KafkaRecords.LatestRecordIsShown | timetravel/kafka_recorder.go:74-167 | end to end: the latest record of an entity whose messages share a partition, published by any service, is what the ledger shows once that partition is consumed from that record or an earlier one on and inserts succeed |
| KafkaRecords.OneRecordIsShown | timetravel/kafka_recorder.go:74-167 | for every record the publisher takes there is a complete run that ends up showing it |
| KafkaRecords.OneRecordIsAlwaysShownIff | timetravel/kafka_recorder.go:74-167 | a single record is what every complete run shows exactly when the group starts at the first offset |
| KafkaRecords.SpreadRecordsCanGoBack | kafka/publisher.go:81-90 | two different records of one entity on two partitions: the one published last need not be the one shown |
| Consumer.FirstSuccess | kafka/consumer.go:269-283 | attempts before the one that counts all failed, and it succeeded if within the limit |
| Consumer.KafkaConsumer.Retry | kafka/consumer.go:266-283 | the handler is called until its first success or the limit, and not once more |
| Consumer.KafkaConsumer.Deliver | kafka/consumer.go:266-290 | a success within the limit counts as one; otherwise the message is given up on with the limit as its retry count and counts as one failure |
| Consumer.KafkaConsumer.HandleMessage | kafka/consumer.go:228-299 | per message: outcome, counters, dead letter with retry count, handler calls and commit, and no other topic's counters change |
| Consumer.Processed | kafka/consumer.go:228-299 | the same case by case: undecodable, no handler, invalid, exhausted, handled |
| Consumer.KafkaConsumer.ConsumeTopic | kafka/consumer.go:214-301 | the loop folds that over the messages, each with the handlers subscribed by then; failed fetches change nothing |
| ConsumerRuns.LoopIsARun | kafka/consumer.go:214-301 | the loop does what a run of its subscriptions and turns does, up to where no message is left; failed fetches are no steps |
| ConsumerRuns.HandledTypesIff | kafka/consumer.go:147-151 | in any run an event type has a handler exactly when it was subscribed since the last crash |
| Consumer.KafkaConsumer.SendToDeadLetter | kafka/consumer.go:303-325 | one dead letter with offset, type and retry count is given up on, and handed on when there is a dead-letter function |
| Consumer.KafkaConsumer.RecordSuccess | kafka/consumer.go:337-349 | one more success for the topic, its failures and other topics unchanged |
| Consumer.KafkaConsumer.RecordFailure | kafka/consumer.go:351-363 | one more failure for the topic, its successes and other topics unchanged |
| ConsumerRuns.EveryRunKeepsInv | kafka/consumer.go:214-301 | in every run with crashes and lost commits, all messages up to the position were processed, what was given up on is among the dead letters of this or an earlier process and nothing else is, and the counters match |
| ConsumerRuns.RecordsAreTurns | kafka/consumer.go:217-301 | what a run says it processed was the turn of one of its steps: that message at that offset, with the handlers subscribed then and the answers given then |
| ConsumerRuns.CommittedMessagesWereProcessed | kafka/consumer.go:228-299 | every message below the committed offset was the turn of a step of the run at which its type had no handler, or an attempt within the limit succeeded, or it is among the dead letters with the attempts made |
| ConsumerRuns.OnlyFailuresAreGivenUp | kafka/consumer.go:228-290 | every dead letter is that of a turn which did not decode the message, found it invalid, or failed in every attempt |
| ConsumerRuns.CountersCountHandledTypes | kafka/consumer.go:337-363 | successes plus failures count exactly the decoded messages whose type had a handler when their turn came |
| ConsumerRuns.TurnCalls | kafka/consumer.go:266-283 | one turn calls the handler up to its first success, at most the limit, and never for a message without handler or with an invalid payload |
| ConsumerRuns.HandlerCallsAreBounded | kafka/consumer.go:266-283 | no step of a run makes more handler calls than the limit, and no process more than the limit per message |
| Schema.ValidateNode | kafka/schema_validator.go:219-275 | the recursive check reports exactly the specified errors, each as often |
| Schema.ValidateRequired | kafka/schema_validator.go:234-244 | one error per required member that is missing or null |
| Schema.ValidateProperties | kafka/schema_validator.go:245-249 | whatever order the properties are visited in, the same errors are reported |
| Schema.ValidateItems | kafka/schema_validator.go:250-255 | every item is checked under its index, nulls included |
| Schema.AnyKeyFirst | kafka/schema_validator.go:245-249 | any property can be visited first without changing the errors |
| Schema.NoErrorsIffConforms | kafka/schema_validator.go:219-313 | there are no errors exactly when the value conforms (JSON Schema Validation 2020-12, sections 6.1.1, 6.1.2, 6.2, 6.3, 6.5.3, except that a required member must not be null and a null optional one is skipped) |
| Schema.MatchesTypeIff | kafka/schema_validator.go:277-313 | a value has exactly the type names of its kind (a number is an integer when it is a whole number in the range of int64), and any unknown name unless it is null |
| SchemaErrors.ErrorsReportFaults | kafka/schema_validator.go:219-336 | an error is reported exactly for each fault: at the value itself, or at a place that the schema leads to through values of the right types, under the dotted and bracketed text of that place or `(root)` |
| SchemaErrors.ByteLenIsUtf8 | kafka/schema_validator.go:257-260 | lengths count the bytes of the UTF-8 form |
| SchemaErrors.Utf8IsWellFormed | kafka/schema_validator.go:257-260 | which is well formed and shortest and decodes to the character (RFC 3629, sections 3 and 4) |
| Numbers.NumbersHaveTheirValue | kafka/schema_validator.go:266-272 | the number texts that bounds are compared by have the value of their parts: sign, whole part, fraction and power of ten (RFC 8259, section 6) |
| Numbers.NumeralsHaveTheirValue | kafka/schema_validator.go:266-272 | the numeral of a natural number has its value |
| SchemaCache.Compiler.CompileSchema | kafka/schema_validator.go:153-169 | with every cache content that earlier calls can leave, the result is the parse of the given source, which is cached if there is one |
| SchemaCache.Compiler.ValidateRawPayload | kafka/schema_validator.go:202-215 | not registered, broken, accepted when the payload conforms to the parsed schema, and otherwise rejected with its errors: the verdict of a validator without a cache |
| SchemaCache.UncachedAcceptsIff | kafka/schema_validator.go:202-215 | a payload is accepted exactly when the schema parses and the payload conforms to it |
| SchemaCache.CachedVerdictsAreUncached | kafka/schema_validator.go:153-169 | in every interleaving of validations and registrations each finished verdict is that of an uncached validator on the schema looked up |
| SchemaCache.VerdictIsOfTheSchemaAtBegin | kafka/event_taxonomy.go:1596-1610 | and that schema is the one registered when the validation began, whatever replaces it later |
| Publisher.EnvelopeIff | kafka/event_taxonomy.go:663-701 | an event passes an envelope schema exactly when resource type and id are non-empty, required metadata is there and not null, and metadata conforms; the timestamp plays no part |
| Publisher.BothSidesAgree | kafka/publisher.go:96-109 | under an envelope schema the publisher accepts exactly the events whose delivered form the consumer accepts, also when a zero timestamp is replaced in between |
| Publisher.BothSidesAgreeIff | kafka/publisher.go:96-109 | under any schema publisher and consumer agree on an event exactly when it carries its own timestamp, or is refused for something else, or the schema takes the zero time and the current one alike |
| Publisher.TimestampSchemasCanDisagree | kafka/event.go:80-88 | such a schema: a length limit on the timestamp makes the consumer refuse what the publisher accepted |
| Publisher.AcceptedEventsArriveComplete | kafka/publisher.go:96-109 | an accepted event reaches the wire with non-empty resource type and id and every required metadata key not null |
| Publisher.FirstRefusal | kafka/publisher.go:148-156 | a batch is refused exactly when one of its events is |
| Publisher.KafkaPublisher.Publish | kafka/publisher.go:96-138 | type, then payload, then write: one message on `prefix.domain.resource`, keyed by the resource id, with the type and every member of the data, stamped if it had no time; or none and the first error |
| Publisher.KafkaPublisher.PublishBatch | kafka/publisher.go:141-187 | all messages of the batch in order, each as a single one would be, or none and the error of the first refused event |
| Publisher.DataIsOnWire | kafka/event.go:44-53 | the data object member by member: which are always there, which only when not empty, and the text of the zero time |
| EventTypes.JoinSegments | kafka/event.go:125-146 | a type is the join of its segments |
| EventTypes.SplitEventParts | kafka/event.go:125-146 | the scan finds the text before the first dot and the text from there to the second dot or the end |
| EventTypes.ValidTypeIff | kafka/event.go:17-28 | the pattern, character by character: at least two dots, a lower-case letter at the start and after every dot, otherwise lower-case letters, digits and, after the first dot, underscores |
| EventTypes.TopicText | kafka/event.go:114-122 | the topic of `d.r` and `d.r.rest` is `prefix.d.r`; a type without a dot, or with an empty second segment, stands for itself |
| EventTypes.ValidTypeSplits | kafka/event.go:17-28 | a valid type is a dot-free domain, a dot-free resource and a non-empty rest, joined by dots, and its leading part is the domain |
| EventTypes.SplitIsUnique | kafka/event.go:125-146 | no other dot-free domain and resource fit |
| EventTypes.SameTopicIff | kafka/event.go:114-122 | two valid types share a topic exactly when their first two segments agree |
| EventTypes.SuffixKeepsTopic | kafka/event.go:114-146 | a valid type keeps its topic whatever is appended to it |
| EventTypes.Registry.LookupEvent | kafka/event_taxonomy.go:1558-1565 | after the built-in events and any registrations, lookup gives the last event accepted under the type, and none exactly when none was |
| EventTypes.Registry.RegisterExtensionEvent | kafka/event_taxonomy.go:1593-1610 | a missing type, an invalid type and a missing schema are refused in that order and change nothing; otherwise the event is accepted as the last one |
| EventTypes.Registry.KnownTopics | kafka/event_taxonomy.go:1612-1630 | the strictly sorted list of the topics of registered events, after any registrations; for a valid type that is its domain and resource under the prefix |
| DeadLetters.DLQProducer.Send | kafka/dlq.go:55-72 | one message under the type with the suffix, with topic, attempts in decimal and error in its metadata beside what was there, exactly when the publisher takes that event and the write succeeds; without a publisher nothing and no error |
| DeadLetters.DLQProducer.HandleFailed | kafka/dlq.go:74-105 | as a dead-letter function it writes the same under the type the consumer names, else the event's, else a fallback, and drops what is refused |
| DeadLetters.DefaultSuffixIsValidIff | kafka/dlq.go:48-51 | with the default suffix a type is valid exactly when it has a domain segment and at least one name segment |
| DeadLetters.LetterIsTakenIff | kafka/dlq.go:57-72 | a dead letter is taken exactly when its event type is of that form and, unless validation is off, the type with the suffix is registered with a schema that takes the event with the failure in it |
| DeadLetters.EnvelopeLetterIsTakenIff | kafka/event_taxonomy.go:663-701 | under an envelope schema: exactly when the event has its resource, every required key that sending does not add, and values that fit |
| DeadLetters.LetterTopic | kafka/dlq.go:37-41 | every dead letter that is taken goes to the topic of its event type, not to one of its own |
| DeadLetters.UndecodableIsDropped | kafka/dlq.go:91-103 | a message that does not decode leaves no dead letter, whatever is registered: the fallback type is refused |
| Replay.Replay | kafka/replay.go:108-162 | the handler gets, in order and up to its first error, exactly the messages read that decode, have a wanted type and resource and are before the bounds; reading ends at the first message at a bound, at that error (reported with its offset) or with the reader, and read, delivered and skipped are counted accordingly |
| Replay.SelectedIsFilter | kafka/replay.go:134-156 | the selection keeps exactly the passing messages, in order |
| Replay.CallsMadeIsFirstFailure | kafka/replay.go:158-161 | calls stop at the first failing one |
| RateLimit.RateLimiter.AllowRequest | middleware/ratelimit.go:92-103 | one client's bucket is asked, created full when missing, and its time noted whether or not it is granted |
| RateLimit.RateLimiter.Evict | middleware/ratelimit.go:119-129 | exactly the clients idle for more than the ttl are dropped |
| RateLaws.RememberedIff | middleware/ratelimit.go:92-129 | in any run a client is remembered exactly when it made a request, granted or not, that no later eviction came more than the ttl after |
| RateLaws.GrantedIff | middleware/ratelimit.go:92-103 | without evictions a request is granted exactly when, with it, no window that begins with a request of its client holds more than burst plus rate times its length |
| RateLaws.DecisionIsGrant | middleware/ratelimit.go:92-103 | these are the decisions of the limiter, request by request |
| RateLimit.SameDecisions | middleware/ratelimit.go:92-129 | when rate times ttl reaches the burst, limiters with and without eviction decide alike on every run |
| RateLimit.EvictionShows | middleware/ratelimit.go:92-129 | when it does not, there is a run on which they differ |
| RateLimit.EvictionIsInvisibleIff | middleware/ratelimit.go:92-129 | eviction never shows exactly when rate times ttl reaches the burst or nothing is ever granted |
| RateLimit.WindowBound | middleware/ratelimit.go:92-129 | one client gets at most burst plus rate times length requests in any window of any run |
| Inbound.MemStore.SeenOrRecord | webhook/inbound/inbound.go:78-94 | drops exactly the expired keys, then says whether the key is known and records it if not |
| Inbound.KnownIff | webhook/inbound/inbound.go:78-94 | a key is known exactly when a call within the last ttl accepted it |
| Inbound.AcceptedCallsAreApart | webhook/inbound/inbound.go:78-94 | accepted calls of one key are more than a ttl apart |
| Inbound.Receiver.Handle | webhook/inbound/inbound.go:128-179 | unknown provider, unreadable body, failed verification in that order, touching neither store nor handler; otherwise the delivery is known by its header or, without one, by provider and body hash, is turned away when that was stored within the ttl, and is else stored and handled |
| Inbound.SameStoreKeyIff | webhook/inbound/inbound.go:159-166 | two deliveries of one provider have one store key exactly when their headers agree, or both have none and their body hashes agree, or the header of one is the provider and hash of the other |
| Inbound.HandlerRunsOncePerWindow | webhook/inbound/inbound.go:159-176 | per provider and key the handler runs at most once in any ttl window |
| Inbound.NamesCollideIff | webhook/inbound/inbound.go:166-166 | two provider names can give one store key exactly when one extends the other by a colon |
| Inbound.DuplicateIff | webhook/inbound/inbound.go:159-169 | when no provider's name extends another's by a colon, a delivery is a duplicate exactly when the handler ran for the same provider and key within the ttl |
| Inbound.DuplicatesArePerProviderIff | webhook/inbound/inbound.go:159-169 | for a set of providers that holds on every run exactly when no name in the set extends another by a colon |
| Inbound.ColonsCollide | webhook/inbound/inbound.go:166-166 | whenever one name extends another by a colon, every key of the longer one has a key of the shorter one that gets its delivery turned away unhandled |
| Inbound.RetryAfterErrorIsADuplicate | webhook/inbound/inbound.go:166-176 | a redelivery within the ttl after a handler error is answered as a duplicate |
| Jwks.BuildKeys | authjwt/validator.go:222-237 | the loop keeps the usable entries of a key set |
| Jwks.KeysAreLastUsable | authjwt/validator.go:222-237 | a key id is there exactly when an RSA entry that decodes has it, with the key of the last one (RFC 7517, section 5) |
| Jwks.EveryRunKeepsInv | authjwt/validator.go:157-248 | in every interleaving only the lock holder is past the lock, the cache is the last install, and fetches are under way only while it is stale |
| Jwks.AtMostOneFetchInFlight | authjwt/validator.go:182-201 | never two fetches at once |
| Jwks.InstallsAreApart | authjwt/validator.go:190-247 | two installs are at least the cache ttl apart |
| Jwks.ReturnedKeyIsInstalled | authjwt/validator.go:157-180 | a returned key is, at that moment, in the installed set under the asked id, or any of it when no id was asked; without a refresh that set is younger than the ttl |
| Jwks.FetchesOnlyWhileStale | authjwt/validator.go:188-201 | in every interleaving a fetch is in flight only while nothing is installed or the last install is a ttl old, so an unknown key id alone starts none |
| Jwks.FirstReadAnswersIff | authjwt/validator.go:158-166 | in every interleaving a caller is answered at once exactly when the last install has its key id and is younger than the ttl |
| Jwks.RecheckFetchesIff | authjwt/validator.go:185-201 | a caller with the lock fetches exactly when nothing is installed or the last install is a ttl old |
| Jwks.ResponseIsInstalledIff | authjwt/validator.go:202-248 | a response is installed, with the current time, exactly when it has an RSA entry that decodes; any other leaves the cache alone |
| Jwks.Validator.Refresh | authjwt/validator.go:185-248 | a non-empty set younger than the ttl stays; otherwise a response with an RSA entry that decodes replaces the set and the time, and any other changes nothing and is reported |
| Jwks.Validator.KeyForKid | authjwt/validator.go:157-180 | a cached key is returned only while its set is younger than the ttl; an older set is replaced by a response with an RSA entry that decodes, and without one there is no key; this is also where the interleaved steps of one caller alone end |
| LiveConfig.ApplyReloadableStruct | config/hot_reload.go:180-204 | the walk in place gives the merge of the old value with the source; only cells behind untagged pointers are written, pointers there stay, tagged pointers become the source's |
| LiveConfig.ApplyReloadable | config/hot_reload.go:155-174 | errors (and the panic on a nil pointer of a type) in the order of the checks and then nothing is written; otherwise the merge, with the same set of written cells as before |
| LiveConfig.Reload | config/hot_reload.go:134-174 | after any number of reloads, from sources that may share memory, the live value is the merge of all sources in turn, and every source keeps its value |
| LiveConfig.OnlyTheLatestCounts | config/hot_reload.go:155-204 | when sources agree on nil pointers, only the latest of any number of reloads counts |
| HotReload.ApplySetsExactlyTheTaggedFields | config/hot_reload.go:176-204 | at every depth a place is the source's exactly when it lies under a tagged exported field the walk reaches, and otherwise as it was |
| HotReload.SameShapesAreEqual | config/hot_reload.go:176-204 | two values of a type that agree at every place are equal, so the law above fixes the result |
| HotReload.LaterApplyWins | config/hot_reload.go:155-204 | a later apply undoes an earlier one exactly when, behind untagged pointers, it reaches all the earlier one changed |
| HotReload.AgreeingSourcesOverride | config/hot_reload.go:198-202 | which is so when both sources agree on which untagged pointers are nil |
| HotReload.ApplyIsIdempotent | config/hot_reload.go:155-204 | applying a source twice is applying it once |

## Where the code and its documentation disagree

The model follows the code.

- `NewKafkaRecorder` says the recorder's service name lets the consumer tag the row
  (`timetravel/kafka_recorder.go:60-61`). The consumer does not read it; the row gets the sink's name.
- `EventType` of the Kafka recorder (`timetravel/kafka_recorder.go:36`) is not among the registered
  events, so a publisher with validation on refuses every snapshot until a service registers it.
- `FieldDiff` says a removed field has a nil new value (`timetravel/diff.go:30-34`); a field that
  became null is reported the same way. `Patch.DiffIsLosslessInAnyOrder` has the exact condition.
- `SnapshotDiff` says a row covers its end (`timetravel/diff.go:44-46`); the query excludes it.
- `ReplayConfig` calls the resource filter an exact match (`kafka/replay.go:34`); it ignores case. It
  also says that replay stops at the end of the log (`kafka/replay.go:23-24`); reading goes on until the
  context ends or a read fails.
- A failing handler of the webhook receiver answers 502 "so the caller retries"
  (`webhook/inbound/inbound.go:173`); the retry within the ttl is answered 409 without running it.
- `Handle` of the webhook receiver says that without a key body and signature are hashed
  (`webhook/inbound/inbound.go:161-162`); only the body is.
- `Validate` says a stale cache is refreshed for a key id not seen yet (`authjwt/validator.go:96-99`); a
  stale cache is refreshed for every key id, and a fresh one for none.
- The dead-letter producer speaks of a DLQ topic (`kafka/dlq.go:37-41`, `:55`); the suffix does not reach
  the topic. Its fallback type is meant to leave a topic to trace (`kafka/dlq.go:96`); the publisher
  refuses that type.

## Left out

- KafkaShown.ConsumedLogIsShown: the handler reports no error when the sink fails, so a failed insert is committed; KafkaShown.ShowsItsLastMessageIff says what is shown then, KafkaShown.ShownIffSeen what is shown when the group started past the message.
- KafkaRuns.EveryRunKeepsInv: the times read for one partition increase; those of different partitions are unrelated. One process of the group reads a partition at a time.
- LiveConfig.ApplyReloadable: what the walk writes to is reached only once, and not from the source. Sharing elsewhere (between sources, within a source, behind tagged or unexported fields) is modelled.
- Publisher.KafkaPublisher.PublishBatch: a write is taken whole or not at all; partial batch failures inside the broker client are not modelled. Headers, event ids, idempotency keys and events that cannot be marshaled are not in the messages.
- Publisher.BothSidesAgree: both checks are on parsed schemas; how their texts parse and are cached is in SchemaCache.
- Consumer.KafkaConsumer.ConsumeTopic: offsets of a partition are positions without gaps, one process of the group reads it at a time, and a rebalance is a crash.
- RateLimit.RateLimiter.AllowRequest: the two clock readings of one call are one, the token bucket is given (starts full, refills at the rate, capped at the burst, no rounding), and rates are not negative.
- Replay.Replay: opening, seeking and the checks of the configuration come before it; case folding of resource ids is a parameter.
- Numbers.NumbersHaveTheirValue: a number is its shortest text and has the exact decimal value of it; rounding inside float64 does not appear. Conversion to int64 outside its range is undefined in Go and modelled as "not an integer".
- KafkaLedger.UuidRoundTrip: the UUID parser counts bytes; texts of ids are taken to be ASCII.
- KafkaRecords.RecordIsCaptured: marshaling a payload text again in the sink is a parameter, as is decoding it in SnapshotDiffs; what the database does to jsonb text is not part of this model.
- DeadLetters.DLQProducer.HandleFailed: what is recovered of the data of a failed message is a parameter. Sending changes the metadata map it is given in place; here it is a value.
- The case-insensitive matching of member names by the JSON decoder.
- Error message text, logging, Health lag, backoff, UUID generation.
- Remote schema-registry verification, listing a dead-letter topic, the literal event list.
- HTTP and RPC clients and handlers, signature and token cryptography: verdicts of verifiers are parameters.
- HotReloader's file watching and debounce.
- `AllEvents`, `EventsByDomain`, snake case, CORS, middleware ordering, profile resolution: easy members.

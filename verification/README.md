# Verified model of vehicle_can_decoder

vehicle_can_decoder turns CAN frames into named, routed, ID-tagged signals, twice: live in a ROS 2
node and offline in a bag converter. This project models both pipelines in Dafny together with the
parts they share, and proves what the two promise.

`dafny verify dfyconfig.toml` checks everything.

## What is modelled

| file | component |
|---|---|
| `Cdr.dfy` | the converter's CDR buffer, grown in place, and the serializer of a `SignalGroup` |
| `CdrReader.dfy` | an independent reader after section 9.3 of part 2 of CORBA 3.3, with the CDR_LE encapsulation header of clause 10 of DDSI-RTPS 2.2, and the proof that it inverts the writer |
| `Stamps.dfy` | message stamps as bag times and as `rclcpp::Time` |
| `TimeoutMonitor.dfy` | the timeout monitor, its map updated in place, against the meaning of a history of calls |
| `TimeoutTheorems.dfy` | alternation of reports and receipts, and detection latency, over whole histories |
| `NodeTimeouts.dfy` | what the diagnostics of a run of the node say about timeouts |
| `SignalRouter.dfy` | the router: last-wins tables and duplicate warnings |
| `SignalPipeline.dfy` | `resolve_signal`: compound keys, alias precedence, domain routing |
| `SchemaTables.dfy` | signal and unit ID tables, and the table published from them |
| `ParamMaps.dfy` | flattening of YAML trees, and the merged parameters of several files |
| `Configuration.dfy` | the converter's and the node's loader of one parameter map |
| `ConfigurationReference.dfy` | each part of a configuration, read off the parameters by their names |
| `FramePipeline.dfy` | what one frame means, stage by stage: what both pipelines are proved to compute |
| `SignalReference.dfy` | what becomes of a raw signal, said from libraries and configuration alone, and that frames, promotions, receipts and counters are exactly that |
| `TopicTables.dfy` | the topic of each domain, as built by the node and by the converter |
| `VehicleCanNode.dfy` | the node: per-frame processing with reused buffers, counters, diagnostics, and its run over callbacks |
| `BagConverter.dfy` | the conversion loop over a stream of bag messages, and the program around it |
| `LiveOffline.dfy` | results across components, above all when node and converter agree on a frame |
| `EndToEnd.dfy` | both programs on one parameter map, one bag and the frames in it |

Four results tie the pieces together.

* **The writer is exact.** A strict reader finds a group at the front of some bytes if and only if the
  bytes start with the group's serialization and its lengths fit 32 bits
  (`CdrReader.StrictReaderInvertsWriter`); a reader that ignores padding recovers it under exactly the
  same condition, whatever follows (`CdrReader.RoundTrip`).
* **What is emitted is what the configuration says.** The signals of a frame are, in order, exactly the raw
  signals with a domain and a value; each carries the id of its aliased name and its transformed value,
  narrowed, and goes to the topic of its domain (`SignalReference.FirehoseIsEmitted`,
  `SignalReference.GroupIsEmitted`, `TopicTables.NodeTopicIff`, `TopicTables.ConverterTopicIff`). The
  configuration is what the parameters say, name by name (`ConfigurationReference`).
* **The monitor is a function of its history.** Status, reports and the timed-out list are proved equal
  to what the past calls say, with no reference to the map. In a run of the node each diagnostic lists a
  signal exactly if more than the timeout has passed since its last receipt
  (`NodeTimeouts.StaleSignalsAreListed`).
* **Live equals offline.** `EndToEnd.RunBoth` loads one parameter map with both loaders, runs the node
  over any interleaving of its timer with the frames of a bag, and converts the bag. The node starts
  exactly with the maps of `Configuration.NodeAccepts`, which is all of its `load_parameters`. It takes in
  the frames up to the first with negative seconds; the converter gets to the first message that fails.
  In each frame both reached, reading the written bytes back gives the groups the node published, up to
  the order of domains, if and only if the frame's stamp is proper (`sec >= 0`, `nanosec < 10^9`) and the
  topic tables agree on its domains, or neither side has anything to send
  (`LiveOffline.ComesOutTheSame`). The bytes are read by the reader above, which needs lengths that fit
  32 bits. The tables are equal exactly for the settings named by
  `TopicTables.TopicsAgree`; with those and proper stamps whole runs agree
  (`EndToEnd.LiveAndOfflineAgree`).

### How it is modelled

* A `std::string` is its bytes (`Common.Text`). Integers carry their C++ ranges; conversions and
  wrap-around are written out.
* A traversal of an unordered container picks elements in any order, so results hold for every order.
* DBC decoding, transform evaluation and the narrowing of doubles are libraries: functions in
  `FramePipeline.Library`, as is what they accept at start-up. A transform that raises an exception is one that returns `None`.
* `rclcpp` is not part of this model, but two of its effects on the outcome are: `rclcpp::Time` made from a
  message throws for negative seconds, holds 64-bit nanoseconds and converts back by division, and a
  parameter declared twice, or with a value of another type, is an error. An exception out of a callback
  ends the node (`src/main.cpp:13-20`).
* Publishers and the bag writer are logs. Clock readings are arguments: `clock(i)` is the reading taken
  for the i-th signal of a frame.
* Loops that the program has inside one long function are methods of their own here
  (`AddIds`, `BuildGroups`, `PublishGroups`, `WriteGroups`, the sections of the loaders).

### Where code and documentation disagree

The model follows the code. Each of these has a concrete input that fails and the exact condition under
which the documented behaviour holds.

* `msg/SignalDiagnostic.msg` counts `decode_errors` in frames; the node counts signals whose transform
  raises an exception. The two are equal exactly if no frame has two such signals
  (`VehicleCanNodes.ErrorsCountFramesIff`, `TwoErrorsInOneFrame`).
* `msg/SignalGroup.msg` says that the firehose carries every decoded signal; signals without a domain are
  left out (`src/vehicle_can_node.cpp:361-368`). It does exactly if every signal has a domain and a value
  (`FramePipeline.FirehoseIsCompleteIff`, `FirehoseMissesUnassigned`).
* `msg/VehicleSchema.msg` promises `signal_table[name_id - 1]`. With duplicate names in
  `signal_id_names` that fails for some ids (`SchemaTables.LookupsSucceedIffNoDuplicates`,
  `DuplicateNameIsNotFound`).
* An alias of a compound key to itself does not shadow the alias of the bare name
  (`include/vehicle_can_decoder/signal_pipeline.hpp:38-39`; `SignalPipeline.ListedKeyResolvesIff`,
  `SelfAliasDoesNotShadow`).
* A domain that is itself called `unassigned` is discarded, although it may have a topic
  (`SignalRouting.UnassignedIff`, `DomainNamedUnassigned`); so is a schema domain of that name
  (`Configuration.SchemaAssignsIff`, `SignalPipeline.SchemaDomainNamedUnassigned`).
* The converter promises what the node publishes (`tools/mcap_converter/src/mcap_converter.cpp:4-6`), but
  copies stamps as they are, while the node passes them through `rclcpp::Time`
  (`src/vehicle_can_node.cpp:322`, 384, 397). That type throws for negative seconds and carries excess
  nanoseconds over (`Stamps.NodeStampKeepsIff`, `Stamps.ImproperStampsChange`,
  `LiveOffline.LiveGroupsEqualIff`, `LiveOffline.ImproperStampComesOutDifferently`). It also writes groups
  for empty topics, and for schema domains whose topics the node does not publish
  (`TopicTables.TopicTablesEqualIff`, `TopicTables.ConverterAloneWrites`). And it ends where the node only
  skips a signal: exactly at the first frame with a raising transform of a signal that has a domain
  (`BagConverter.BuildGroups`, `BagConverter.ConvertOne`, `LiveOffline.ConverterStopsWhereNodeSkips`).
* Bag times order stamps and tell them apart below one second of nanoseconds, and not beyond
  (`Stamps.TimesTellApartIff`, `Stamps.ImproperStampsCollide`).

## Model

| member | source | states |
|---|---|---|
| Cdr.Buffer.Align | tools/mcap_converter/src/mcap_converter.cpp:123-127 | appends only zero bytes, the fewest that make the size a multiple of the alignment, for any alignment |
| Cdr.Buffer.WriteUint16 | tools/mcap_converter/src/mcap_converter.cpp:129-134 | the whole new buffer: padding to 2, then low byte before high byte |
| Cdr.Buffer.WriteInt32 | tools/mcap_converter/src/mcap_converter.cpp:136 | the whole new buffer, negative values in two's complement |
| Cdr.Buffer.WriteUint32 | tools/mcap_converter/src/mcap_converter.cpp:138-145 | the whole new buffer: padding to 4, then four bytes, least significant first |
| Cdr.Buffer.WriteFloat32 | tools/mcap_converter/src/mcap_converter.cpp:147-152 | the whole new buffer: the bit pattern of the float as a 32-bit number |
| Cdr.Buffer.WriteString | tools/mcap_converter/src/mcap_converter.cpp:154-159 | the whole new buffer: length with terminator modulo 2^32, the bytes, a zero byte |
| Cdr.SerializeSignalGroup | tools/mcap_converter/src/mcap_converter.cpp:162-180 | the buffer grows by header, stamp, frame id, domain and all signals; from an empty buffer the result is the group's encoding |
| CdrReader.BodyBehindHeader | tools/mcap_converter/src/mcap_converter.cpp:123-127 | aligning to the buffer size, header included, yields the same bytes as aligning relative to the body |
| CdrReader.StrictReaderInvertsWriter | tools/mcap_converter/src/mcap_converter.cpp:115-180 | a reader that checks padding finds a group exactly if the message starts with that group's encoding and its lengths fit 32 bits, and stops at the end of the encoding |
| CdrReader.HeaderAgrees | tools/mcap_converter/src/mcap_converter.cpp:164-166 | a reader that wants the identifier of CDR_LE accepts the writer's header, and a strict one no other |
| CdrReader.AlignedIsRoundUp | tools/mcap_converter/src/mcap_converter.cpp:123-127 | the reader, which walks to the least aligned offset, aligns like the writer, which computes it |
| CdrReader.AlignedIsLeast | tools/mcap_converter/src/mcap_converter.cpp:123-127 | the reader's aligned offset is the least one |
| CdrReader.RoundTrip | tools/mcap_converter/src/mcap_converter.cpp:154-180 | reading an encoding followed by anything gives back the group and its length if and only if the lengths fit 32 bits |
| CdrReader.EncodingsSplitUniquely | tools/mcap_converter/src/mcap_converter.cpp:162-180 | encodings are injective and prefix-free |
| CdrReader.WrappedLengthIsUnreadable | tools/mcap_converter/src/mcap_converter.cpp:156 | a frame id of 2^32 - 1 bytes, whose length field wraps to zero, makes the message malformed |
| CdrReader.Layout | tools/mcap_converter/src/mcap_converter.cpp:162-180 | every byte: the header 00 01 00 00, the offset of every field, each at its natural alignment and least significant byte first, zero padding, and the total length in closed form |
| TimeoutMonitoring.StatusStep | src/timeout_monitor.cpp:18-57 | how one call changes the status that a history defines by its last receipt and the checks behind it |
| TimeoutMonitoring.TimeoutMonitor.RegisterSignal | src/timeout_monitor.cpp:12-16 | registering is one more event of the history; existing state is kept |
| TimeoutMonitoring.TimeoutMonitor.SignalReceived | src/timeout_monitor.cpp:18-28 | a receipt, with auto-registration, is one more event of the history |
| TimeoutMonitoring.TimeoutMonitor.GetStatus | src/timeout_monitor.cpp:30-37 | the status the history defines: initial if never received, timed out if some later check found it stale, else ok |
| TimeoutMonitoring.TimeoutMonitor.CheckTimeouts | src/timeout_monitor.cpp:39-57 | reports, without repeats, exactly the names this check takes from ok to timed out; the 64-bit subtraction agrees with exact arithmetic |
| TimeoutMonitoring.TimeoutMonitor.TimedOutSignals | src/timeout_monitor.cpp:59-68 | lists, without repeats, exactly the names the history defines as timed out |
| TimeoutTheorems.ReportsBalance | src/timeout_monitor.cpp:18-57 | after every prefix of a run, reports exceed recoveries by one while timed out and equal them otherwise, and never exceed receipts |
| TimeoutTheorems.ReportsAreSeparated | src/timeout_monitor.cpp:39-57 | two reports of a name have a receipt of it between them |
| TimeoutTheorems.DetectionLatency | src/timeout_monitor.cpp:39-57 | on a monotone clock with regular checks, a signal last seen at t is ok at every check up to t + T, is reported, and every report since lies in (t + T, t + T + P] |
| TimeoutTheorems.TimedOutAtCheckIff | src/timeout_monitor.cpp:39-57 | on a monotone clock a check leaves a signal timed out exactly if more than the timeout has passed since its last receipt |
| NodeTimeouts.HistoryOfRun | src/vehicle_can_node.cpp:362-363 | the monitor's history in a run of the node is the receipts of the forwarded signals and the checks of the timer, in the order of the callbacks |
| NodeTimeouts.CheckIsOfTimer | src/vehicle_can_node.cpp:417 | every check of a run is one timer callback's, with the configured timeout |
| NodeTimeouts.DiagnosticOfTimer | src/vehicle_can_node.cpp:407-423 | the diagnostic of each timer callback has its stamp, the CAN topic, the counters of the frames before it and the names timed out by then |
| NodeTimeouts.StaleSignalsAreListed | src/vehicle_can_node.cpp:417-421 | on a monotone clock each diagnostic after a signal's last receipt lists it exactly if more than the timeout has passed |
| NodeTimeouts.StaleSignalsAreListedInTime | src/vehicle_can_node.cpp:417-421 | with checks at most P apart, some diagnostic lists the signal after t + T and no later than t + T + P |
| SignalRouting.SignalRouter.Configure | src/signal_router.cpp:15-48 | tables and the multiset of warnings are functions of the arguments alone: independent of earlier configurations and of the order id sets are traversed in |
| SignalRouting.SignalRouter.AllKnownIds | src/signal_router.cpp:77-85 | exactly the ids that have a domain; after a configuration, the union of its id sets |
| SignalRouting.AllIdsAreListed | src/signal_router.cpp:77-85 | that union holds an id exactly if some domain lists it |
| SignalRouting.OwnerIsLastLister | src/signal_router.cpp:25-45 | an id belongs to the last domain that lists it |
| SignalRouting.UnlistedHasNoOwner | src/signal_router.cpp:50-57 | an id has no domain exactly if no domain lists it |
| SignalRouting.TableOwnerIsLastLister | src/signal_router.cpp:27-45 | the table gives an id the name of the last domain that lists it |
| SignalRouting.TableTopicIff | src/signal_router.cpp:26 | the table gives a name the topic of the last domain so named, and of no other |
| SignalRouting.UnassignedIff | src/signal_router.cpp:50-57 | an id is reported unassigned exactly if no domain lists it, or the last that does is itself called unassigned |
| SignalRouting.DomainNamedUnassigned | src/signal_router.cpp:50-57 | a configuration where a listed id with a topic is reported unassigned |
| SignalRouting.WarningCount | src/signal_router.cpp:27-43 | as many warnings as listings beyond the first of each id |
| SignalRouting.WarnedIff | src/signal_router.cpp:27-43 | there is a warning for an id, a previous and a new domain exactly where the id moves from the last domain listing it to the next |
| SignalRouting.NoWarningsIffDisjoint | src/signal_router.cpp:27-47 | no warnings exactly if the id sets are pairwise disjoint |
| SignalPipeline.DecimalRoundTrip | include/vehicle_can_decoder/signal_pipeline.hpp:36 | decimal text can be read back and holds no underscore |
| SignalPipeline.DecimalLength | include/vehicle_can_decoder/signal_pipeline.hpp:36 | decimal text has no leading zeros |
| SignalPipeline.DecimalDigit | include/vehicle_can_decoder/signal_pipeline.hpp:36 | each digit of decimal text, by its place |
| SignalPipeline.CompoundKeyIs | include/vehicle_can_decoder/signal_pipeline.hpp:36 | the compound key is CAN, the id in decimal, an underscore and the raw name |
| SignalPipeline.ResolvedNameIs | include/vehicle_can_decoder/signal_pipeline.hpp:33-39 | a signal's name: the alias of its compound key if listed with another value, else of its raw name if listed, else the raw name |
| SignalPipeline.CompoundKeyIsInjective | include/vehicle_can_decoder/signal_pipeline.hpp:33-36 | a compound key determines CAN id and raw name, for all ids and names |
| SignalPipeline.CompoundAliasEffect | include/vehicle_can_decoder/signal_pipeline.hpp:36-39 | the exact effect of a new compound alias on every signal: its own signal, signals literally named like the key without compound alias, and no other |
| SignalPipeline.IdentityAliasHasNoEffect | include/vehicle_can_decoder/signal_pipeline.hpp:37-39 | an alias of an unaliased name to itself changes no resolution |
| SignalPipeline.ListedKeyResolvesIff | include/vehicle_can_decoder/signal_pipeline.hpp:36-39 | a signal whose compound key is in the aliases gets that alias exactly if it differs from the key or the bare name resolves to the key |
| SignalPipeline.SelfAliasDoesNotShadow | include/vehicle_can_decoder/signal_pipeline.hpp:38-39 | a compound key listed under itself whose signal is renamed by its bare name |
| SignalPipeline.AliasIsLocal | include/vehicle_can_decoder/signal_pipeline.hpp:36-50 | editing one alias leaves every signal alone whose raw name and compound key differ from its key |
| SignalPipeline.IndependentCompoundAliases | include/vehicle_can_decoder/signal_pipeline.hpp:26-39 | one raw name on two CAN ids can be renamed independently |
| SignalPipeline.RoutingIsClosed | include/vehicle_can_decoder/signal_pipeline.hpp:41-48 | whatever a signal resolves to is unassigned or a domain with a topic in the table of the active mode |
| SignalPipeline.RoutedToLastLister | include/vehicle_can_decoder/signal_pipeline.hpp:46-48 | without a schema the domain is the last one listing the CAN id, whatever the name |
| SignalPipeline.UnlistedIsUnassigned | include/vehicle_can_decoder/signal_pipeline.hpp:46-48 | without a schema an unlisted id is unassigned |
| SignalPipeline.SchemaDomainNamedUnassigned | include/vehicle_can_decoder/signal_pipeline.hpp:42-45 | a schema that routes a signal to a topic under the name unassigned, and so discards it |
| SchemaTables.IdOfName | src/vehicle_can_node.cpp:229-231 | a name has an id exactly if listed, and the id is its last position |
| SchemaTables.IdsAreInjective | src/vehicle_can_node.cpp:229-231 | two names never share an id, so sorting by id decides the whole order |
| SchemaTables.LoadIdTables | src/vehicle_can_node.cpp:206-243 | the error for each rejected input, in order of precedence, and otherwise the tables, without 16-bit wrap |
| SchemaTables.PublishSchema | src/vehicle_can_node.cpp:433-450 | the rows are exactly those of the map, strictly increasing in id, for any traversal order |
| SchemaTables.RowsAreLastPositions | src/vehicle_can_node.cpp:433-448 | the published rows stand, in order, for the positions that are last of their name |
| SchemaTables.LookupSucceedsIff | msg/VehicleSchema.msg:8-9 | looking an id up by position finds its row exactly if no name listed before it occurs again later |
| SchemaTables.LookupsSucceedIffNoDuplicates | msg/VehicleSchema.msg:16-18 | every id can be looked up by position if and only if the list of names has no duplicates |
| SchemaTables.DuplicateNameIsNotFound | msg/VehicleSchema.msg:16-18 | a list of two equal names, whose id is not found |
| SchemaTables.TableIsTheList | msg/VehicleSchema.msg:16-18 | without duplicates the published table is the list, in order |
| SchemaTables.UnitColumn | src/vehicle_can_node.cpp:233-242 | a row's unit id is 0 exactly for unlisted units and otherwise leads back to the unit of that position, duplicates included |
| ParamMaps.FlattenYaml | tools/mcap_converter/src/mcap_converter.cpp:202-213 | recursive flattening into an accumulating map is the left-to-right assignment of the tree's leaves |
| ParamMaps.LastLeafWins | tools/mcap_converter/src/mcap_converter.cpp:211 | of several leaves with one dotted key the last counts |
| ParamMaps.LeavesInOrder | tools/mcap_converter/src/mcap_converter.cpp:202-213 | the leaves of a mapping are those of its entries in order, keys joined by dots |
| ParamMaps.NestedEqualsDotted | tools/mcap_converter/src/mcap_converter.cpp:202-213 | a nested mapping and its dotted spelling have the same leaves if and only if no empty key stands at the root, or there are no leaves |
| ParamMaps.DottedInPlace | tools/mcap_converter/src/mcap_converter.cpp:194-213 | with a nonempty key, spelling a nested mapping with dotted keys in place leaves the flattened file unchanged |
| ParamMaps.EmptyRootKeyLosesItsDot | tools/mcap_converter/src/mcap_converter.cpp:206-207 | the excepted case, with a concrete tree |
| ParamMaps.FullyDottedFileIsEquivalent | tools/mcap_converter/src/mcap_converter.cpp:202-213 | any file flattens like the file that lists its dotted leaf paths |
| ParamMaps.MergeFiles | tools/mcap_converter/src/mcap_converter.cpp:620-625 | merging is the override union of the files in order, for any order of entries within a file |
| ParamMaps.LaterFileWins | tools/mcap_converter/src/mcap_converter.cpp:620-625 | a key has the value of the last file that contains it |
| ParamMaps.KeysOfFiles | tools/mcap_converter/src/mcap_converter.cpp:620-625 | a key is in the merged map exactly if some file has it |
| ParamMaps.ParameterIsLastLeaf | tools/mcap_converter/src/mcap_converter.cpp:620-625 | a parameter has the value of the last leaf of its key in the last file that has one |
| ParamMaps.ParameterIff | tools/mcap_converter/src/mcap_converter.cpp:620-625 | a key is a parameter exactly if some file has a leaf of it |
| ParamMaps.LoadFiles | tools/mcap_converter/src/mcap_converter.cpp:620-625 | flattening and merging the files yields the parameters they hold |
| ParamMaps.SameLeavesSameParams | tools/mcap_converter/src/mcap_converter.cpp:194-225 | files with the same leaves in the same order hold the same parameters, nested or dotted |
| ParamMaps.DottedFilesSameParams | tools/mcap_converter/src/mcap_converter.cpp:194-225 | each file can be replaced by the list of its dotted paths |
| Configuration.BuildConfig | tools/mcap_converter/src/mcap_converter.cpp:293-335 | fails exactly for more than 65535 signal names, and otherwise yields the configuration the parameters mean, CAN topic included |
| Configuration.LoadDomains | src/vehicle_can_node.cpp:106-133 | succeeds exactly if no domain is listed twice, which declaring its parameters finds out, types fit and ids are in range; then yields the domains in order |
| Configuration.LoadAliases | src/vehicle_can_node.cpp:135-144 | succeeds exactly if no name is listed twice and types fit; then yields the aliases |
| Configuration.LoadTransforms | src/vehicle_can_node.cpp:151-166 | succeeds exactly if no name is listed twice and types fit; then yields expressions and units |
| Configuration.LoadSchema | src/vehicle_can_node.cpp:183-196 | succeeds exactly if no schema domain is listed twice and types fit; then yields topics and routes |
| Configuration.LoadPromoted | src/vehicle_can_node.cpp:170-181 | succeeds exactly if no name is listed twice and types fit; then yields the topic of each promoted signal |
| Configuration.CheckSettings | src/vehicle_can_node.cpp:46-102 | passes exactly if all parameters of fixed names have their types, rates and timeout are positive, and the DBC file is named and loads |
| Configuration.LoadParameters | src/vehicle_can_node.cpp:66-250 | succeeds exactly for maps with proper types and settings, ids in range, no name listed twice in a section, transforms that compile and fitting ID lists; then yields the converter's configuration, the ID tables and the node's settings |
| Configuration.NothingSkipped | tools/mcap_converter/src/mcap_converter.cpp:237-263 | on lists the node accepts, the converter's skipping list access skips nothing and keeps the order |
| Configuration.DomainsInOrder | tools/mcap_converter/src/mcap_converter.cpp:298-306 | one domain per listed name, in order, with its own topic and ids |
| Configuration.EntriesOfListedNames | tools/mcap_converter/src/mcap_converter.cpp:308-320 | aliases, transforms and schema topics have entries exactly for the listed names, each from that name's parameters |
| Configuration.RouteIsLastLister | src/vehicle_can_node.cpp:184-196 | a signal goes to the last schema domain that lists it |
| Configuration.RoutesAreClosed | tools/mcap_converter/src/mcap_converter.cpp:319-324 | every routed signal goes to a domain that has a schema topic |
| Configuration.SchemaRoutesByName | include/vehicle_can_decoder/signal_pipeline.hpp:42-45 | with a schema the domain of a listed signal depends on its resolved name only |
| Configuration.SchemaAssignsIff | include/vehicle_can_decoder/signal_pipeline.hpp:42-45 | with a schema a signal is assigned exactly if some schema domain lists its resolved name and the last to do so is not called unassigned |
| ConfigurationReference.ListsAre | tools/mcap_converter/src/mcap_converter.cpp:237-263 | list access takes the suitable items, in order, and skips all others |
| ConfigurationReference.CanTopicIs | tools/mcap_converter/src/mcap_converter.cpp:296 | the CAN topic, from its parameter or default |
| ConfigurationReference.DomainIs | tools/mcap_converter/src/mcap_converter.cpp:298-306 | each domain's name, topic and ids, the latter cast to 32 bits |
| ConfigurationReference.EntriesAre | tools/mcap_converter/src/mcap_converter.cpp:308-320 | each alias, transform and schema topic, from the parameters of its own name |
| ConfigurationReference.RouteIs | tools/mcap_converter/src/mcap_converter.cpp:319-324 | a signal is routed exactly to the last schema domain that lists it |
| ConfigurationReference.IdIs | tools/mcap_converter/src/mcap_converter.cpp:326-332 | each name's id, its last position in the list |
| ConfigurationReference.SettingsAre | src/vehicle_can_node.cpp:78-88 | each setting of the node, from its parameter or default, and the topic of each promoted signal |
| ConfigurationReference.SettingsAreOkIff | src/vehicle_can_node.cpp:70-102 | which settings the node accepts, by parameter |
| ConfigurationReference.FixedTypesAre | src/vehicle_can_node.cpp:46-62 | the type demanded of each parameter of a fixed name |
| ConfigurationReference.SectionsAreOkIff | src/vehicle_can_node.cpp:106-196 | the types and ranges demanded of the parameters of each listed name |
| ConfigurationReference.RangeIs | src/vehicle_can_node.cpp:124-129 | CAN ids are accepted from 0 to 0x1FFFFFFF |
| ConfigurationReference.AtMostZeroIs | src/vehicle_can_node.cpp:72-94 | the test of the rates on the bits of a double is the comparison of its value with zero, and false for a NaN |
| FramePipeline.SignalsAreConserved | src/vehicle_can_node.cpp:342-368 | decoded signals are forwarded, unassigned or transform errors, each exactly one of these |
| FramePipeline.FirehoseIsCompleteIff | src/vehicle_can_node.cpp:361-368 | the firehose has one entry per decoded signal exactly if each has a domain and a value |
| FramePipeline.FirehoseMissesUnassigned | src/vehicle_can_node.cpp:361-368 | a decoded signal that the firehose does not carry |
| FramePipeline.TagsAreAssigned | src/vehicle_can_node.cpp:361-364 | no frame has a group for unassigned signals |
| FramePipeline.GroupsPartition | src/vehicle_can_node.cpp:364-402 | the per-domain lists together hold exactly the firehose's signals |
| FramePipeline.GroupIsFilteredFirehose | src/vehicle_can_node.cpp:362-368 | each per-domain list is the firehose at the increasing positions of that domain |
| FramePipeline.FrameGroupsEqualIff | src/vehicle_can_node.cpp:381-392 | two topic tables give a frame the same messages exactly if they agree on the frame's domains |
| FramePipeline.EveryFrameIsDecodedOrUnknown | src/vehicle_can_node.cpp:329-337 | over any run, decoded and unknown frames add up to all frames |
| SignalReference.DecoderInput | src/vehicle_can_node.cpp:315-331 | the decoder is given the frame's own id and its first dlc bytes, at most eight, filled up with zeros |
| SignalReference.TagsAreEmitted | src/vehicle_can_node.cpp:342-368 | the forwarded signals stem, in order, from exactly the raw signals with a domain and a value |
| SignalReference.FirehoseIsEmitted | src/vehicle_can_node.cpp:342-368 | each signal of the firehose has the id of its aliased name, or 0, and the narrowed value of its transform |
| SignalReference.GroupIsEmitted | tools/mcap_converter/src/mcap_converter.cpp:529-550 | each group has its frame's stamp, no frame id, its domain's topic, and exactly the signals of its domain, with their ids and transformed values |
| SignalReference.EmittedHasGroup | tools/mcap_converter/src/mcap_converter.cpp:553-555 | every domain with a topic in which a signal is emitted has a group |
| SignalReference.UnknownHasNoGroups | tools/mcap_converter/src/mcap_converter.cpp:520-523 | a frame of unknown id has none |
| SignalReference.FirehoseIs | src/vehicle_can_node.cpp:394-402 | the firehose message: its topic, the domain all, the frame's stamp and all forwarded signals |
| SignalReference.PromotionsAre | src/vehicle_can_node.cpp:370-378 | exactly the signals of promoted names with a value are promoted, in order, on their topics with their transformed values |
| SignalReference.ReceiptsAre | src/vehicle_can_node.cpp:362-363 | the monitor is told of exactly the forwarded signals, in order, by aliased name and their own clock reading |
| SignalReference.MessagesAre | src/vehicle_can_node.cpp:381-402 | the messages of a run are, frame by frame, its groups and then its firehose message |
| SignalReference.AllPromotionsAre | src/vehicle_can_node.cpp:370-378 | the promotions of a run are those of its frames, in order |
| TopicTables.TopicTablesEqualIff | tools/mcap_converter/src/mcap_converter.cpp:411-417 | node and converter topics are equal if and only if the settings meet a condition on empty and schema topics |
| TopicTables.TopicsOfDomainEqualIff | tools/mcap_converter/src/mcap_converter.cpp:411-417 | the exact condition under which both have the same topic, or none, for one domain |
| TopicTables.NodeTopicIff | src/vehicle_can_node.cpp:261-275 | the node's topic of a domain: the schema's if published per domain, else the nonempty topic of the last domain of the name |
| TopicTables.ConverterTopicIff | tools/mcap_converter/src/mcap_converter.cpp:411-417 | the converter's topic of a domain: the schema's, else that of the last domain of the name |
| TopicTables.ConverterAloneWrites | src/vehicle_can_node.cpp:254-275 | settings of both kinds under which only the converter has a topic |
| VehicleCanNodes.SetupPublishers | src/vehicle_can_node.cpp:261-275 | domains with a nonempty routed topic, overridden by schema topics if published per domain |
| VehicleCanNodes.VehicleCanNode.constructor | src/vehicle_can_node.cpp:254-275 | a new node is valid, routes by a freshly configured router and has the node's topics |
| VehicleCanNodes.VehicleCanNode.OnCanFrame | src/vehicle_can_node.cpp:313-323 | throws exactly for negative seconds and then changes nothing; otherwise one more frame is seen, with the stamp its time converts back to |
| VehicleCanNodes.VehicleCanNode.HandleFrame | src/vehicle_can_node.cpp:327-403 | from any leftovers in the buffers: counters, published groups in any domain order with the stamp of the time given, firehose, promotions and monitor history of the frame |
| VehicleCanNodes.VehicleCanNode.ProcessFrame | src/vehicle_can_node.cpp:327-403 | keeps the run invariant: counters, publications, promotions, monitored names and the diagnostics sent are those of all frames seen |
| VehicleCanNodes.VehicleCanNode.BuildGroups | src/vehicle_can_node.cpp:339-379 | the loop with the transform first: groups, firehose list, errors, promotions and receipts of the frame |
| VehicleCanNodes.VehicleCanNode.PublishGroups | src/vehicle_can_node.cpp:381-392 | one message per domain with a publisher, each once, in some order, stamped with the time converted back |
| VehicleCanNodes.VehicleCanNode.OnDiagnosticsTimer | src/vehicle_can_node.cpp:407-423 | keeps the run invariant and sends one diagnostic, with stamp, topic, counters and exactly the timed-out names, each once |
| VehicleCanNodes.VehicleCanNode.Spin | src/main.cpp:13-20 | any interleaving of frames and timer keeps the run invariant, one callback after the other, up to the first that throws |
| VehicleCanNodes.LeadsMeansRan | src/main.cpp:13-20 | what the callbacks of a run add up to: frames seen, calls of the monitor in order, and one diagnostic per firing of the timer about all that came before |
| VehicleCanNodes.RunNode | src/main.cpp:13-20 | starts exactly with accepted parameters, publishes their schema, and then leaves the messages, promotions and diagnostics its callbacks call for, up to the first that throws |
| VehicleCanNodes.CountersAddUp | src/vehicle_can_node.cpp:329-337 | in every reachable state received = decoded + unknown modulo 2^64, and exactly so before a wrap-around |
| SignalReference.CountersAre | src/vehicle_can_node.cpp:329-350 | each counter by itself: frames, frames of known and of unknown ids, and signals whose transform raises |
| SignalReference.DiagnosticIs | src/vehicle_can_node.cpp:409-422 | each field of a diagnostic of a run, from the frames and calls before it |
| SignalReference.NamesAre | src/vehicle_can_node.cpp:362-363 | the monitored names are the aliased names of the forwarded signals |
| VehicleCanNodes.MonitoredNamesAreForwarded | src/vehicle_can_node.cpp:362-363 | in every reachable state the monitored names are those of forwarded signals, none in its initial state |
| VehicleCanNodes.DiagnosticsNeverDecrease | src/vehicle_can_node.cpp:407-422 | in every reachable state, of any two diagnostics sent the later has no smaller counter, as long as the totals behind it fit 64 bits, and its frames add up |
| VehicleCanNodes.ErrorsCountFramesIff | src/vehicle_can_node.cpp:345-351 | errors count the frames with errors exactly if no frame has two raising signals |
| VehicleCanNodes.CounterCountsFramesIff | src/vehicle_can_node.cpp:345-351 | the same of the node's counter in every reachable state, before it wraps |
| VehicleCanNodes.TwoErrorsInOneFrame | src/vehicle_can_node.cpp:345-351 | one frame that is counted twice |
| BagConverter.BuildTopics | tools/mcap_converter/src/mcap_converter.cpp:411-417 | routed topics, the last domain of a name winning, overridden by schema topics |
| BagConverter.BuildGroups | tools/mcap_converter/src/mcap_converter.cpp:527-550 | the loop with the unassigned test first: fails exactly if a transform of an assigned signal does, else gives the frame's groups |
| BagConverter.SerializeGroup | tools/mcap_converter/src/mcap_converter.cpp:561-585 | a bag message carries its group's encoding and the time of its frame, which fits 64 bits |
| BagConverter.MessagesHaveFrameTime | tools/mcap_converter/src/mcap_converter.cpp:566-568 | every message of a frame has the bag time sec * 10^9 + nanosec of its stamp |
| BagConverter.MessagesKeepFrameOrder | tools/mcap_converter/src/mcap_converter.cpp:566-568 | messages of frames with proper nanoseconds are ordered as the frames' stamps |
| BagConverter.WriteGroups | tools/mcap_converter/src/mcap_converter.cpp:552-593 | one serialized message per group with a topic, each once, in some order; every one is counted |
| BagConverter.ConvertOne | tools/mcap_converter/src/mcap_converter.cpp:496-598 | stops exactly at the first message that fails; up to there other topics pass verbatim, frames become their groups and the summary counts both |
| BagConverter.ConvertBag | tools/mcap_converter/src/mcap_converter.cpp:631-647 | given parameters, starts exactly if the signal names fit, the DBC file loads and the transforms compile; then converts with the pipeline and topics of the configuration, by a router of its own |
| BagConverter.ConvertWithFiles | tools/mcap_converter/src/mcap_converter.cpp:620-647 | the same from the trees of the configuration files on |
| BagConverter.LayoutDoesNotMatter | tools/mcap_converter/src/mcap_converter.cpp:194-225 | with the same leaves per file the converter starts alike, with one configuration, and the same conversions fit |
| BagConverter.MessagesAreConserved | tools/mcap_converter/src/mcap_converter.cpp:500-524 | messages = passed through + frames, frames = decoded + unknown |
| BagConverter.FramesAre | tools/mcap_converter/src/mcap_converter.cpp:508-513 | the frames converted stem, in order, from exactly the messages of the CAN topic |
| BagConverter.SummaryIs | tools/mcap_converter/src/mcap_converter.cpp:600-606 | each number of the summary by itself, from the messages and the output |
| BagConverter.OutputIsPieces | tools/mcap_converter/src/mcap_converter.cpp:496-593 | the output is, message by message, the message itself or the groups of its frame |
| BagConverter.OthersArePreserved | tools/mcap_converter/src/mcap_converter.cpp:499-504 | messages of other topics all appear in the output, unchanged and in order; output = passed through + groups |
| Stamps.TimesKeepOrder | tools/mcap_converter/src/mcap_converter.cpp:566-568 | bag times order proper stamps as the stamps do, and tell different stamps apart |
| Stamps.ImproperStampsCollide | tools/mcap_converter/src/mcap_converter.cpp:566-568 | two different stamps with one bag time, when nanoseconds reach a second |
| Stamps.TimesTellApartIff | tools/mcap_converter/src/mcap_converter.cpp:566-568 | bag times order all stamps with nanoseconds below a bound, and tell them apart, exactly if the bound is at most one second |
| Stamps.NodeStampKeepsIff | src/vehicle_can_node.cpp:322 | the node passes a stamp on unchanged exactly if it has no negative seconds and less than a second of nanoseconds, and throws exactly for negative seconds |
| Stamps.NodeStampCarries | src/vehicle_can_node.cpp:384 | other stamps are normalised, to the same moment exactly while the seconds fit 32 bits |
| Stamps.ImproperStampsChange | src/vehicle_can_node.cpp:322 | a stamp that is changed and one that makes the node throw |
| LiveOffline.ChunkReadsBack | tools/mcap_converter/src/mcap_converter.cpp:561-585 | an independent reader recovers every group of a frame from the written bytes |
| LiveOffline.LiveGroupsEqualIff | tools/mcap_converter/src/mcap_converter.cpp:536-543 | for every frame and any two topic tables, the node's groups are the converter's exactly if the stamp is proper and the tables agree on the frame's domains, or neither side sends anything |
| LiveOffline.ImproperStampComesOutDifferently | tools/mcap_converter/src/mcap_converter.cpp:540-541 | a frame that is published and converted with different stamps |
| LiveOffline.ConverterStopsWhereNodeSkips | tools/mcap_converter/src/mcap_converter.cpp:532-536 | a frame of which the node publishes one signal and at which the conversion ends |
| LiveOffline.ConverterStopsIff | tools/mcap_converter/src/mcap_converter.cpp:508-536 | the converter stops exactly at a message of its CAN topic that cannot be deserialized or holds a signal with a domain whose transform raises |
| LiveOffline.FramesAgreeIff | tools/mcap_converter/src/mcap_converter.cpp:552-593 | for any two topic tables, runs over the same frames agree in a frame both reached, up to the order of groups, exactly under that condition |
| LiveOffline.LiveAndOfflineAgreeIff | tools/mcap_converter/src/mcap_converter.cpp:496-593 | for every run and frame both sides reached, the groups read back are those the node published, up to order, exactly under that condition on stamp and topics |
| EndToEnd.NodeStopsAtFirstNegative | src/main.cpp:13-20 | a run of the node takes in the arriving frames up to the first with negative seconds, whatever the timer does |
| EndToEnd.RunBoth | tools/mcap_converter/src/mcap_converter.cpp:4-6 | from one parameter map: each program starts exactly if it accepts the map and stops exactly where it must, no message before that failing; what the node leaves fits its callbacks, what the converter leaves fits its messages, and frame by frame both correspond under the exact condition on stamp and topics, bag times included |
| EndToEnd.LiveAndOfflineAgree | tools/mcap_converter/src/mcap_converter.cpp:4-6 | under agreeing settings and with proper stamps, a conversion that gets through holds, frame by frame, what the node published |
| LiveOffline.AssignedSignalsAreForwarded | src/vehicle_can_node.cpp:342-368 | for frames the converter gets through, both forward every signal that has a domain |
| LiveOffline.NoGroupIsDropped | tools/mcap_converter/src/mcap_converter.cpp:553-555 | the missing-topic test never drops a group: exactly one message per domain, on the topic of that domain, with all its signals |
| LiveOffline.GroupsCarryTheFirehose | src/vehicle_can_node.cpp:381-402 | if each domain of a frame has a topic, its groups, in any order, carry together exactly the firehose's signals |
| LiveOffline.EmittedIdResolves | msg/Signal.msg:5-9 | an emitted id is 0 exactly for unlisted names; any other is found by position exactly if no earlier name occurs again later |
| LiveOffline.EmittedIdResolvesInRun | msg/Signal.msg:5-9 | the same of the table a run of the node publishes and the signals its own parameters make it emit |

## Left out

- DBC parsing and bit extraction (`src/dbc_decoder.cpp`) and expression evaluation (`src/signal_transformer.cpp`): done by libraries; functions here.
- Floating point: doubles are bit patterns that are passed on; narrowing to float is a function.
- CAN socket reading, command line, directory batches, renames and the temporary resource prefix: system calls and plumbing.
- Quality of service, timers, subscriptions and bag storage formats: publications and written messages are logs.
- Typing of parameter files: each scalar is taken to be text, an integer or something else, as the file reader of ROS 2 would have it; both YAML readers are taken to agree on integers, and types of parameters that are never read are not checked.
- Start-up failures outside `load_parameters` and the converter's configuration: topic names that ROS 2 refuses, files that cannot be read or parsed, bags that cannot be opened or exist already.
- Order of the node's start-up errors: all parameters of fixed names are type-checked before anything else.
- Rates of the timers and the topic of the diagnostics: checked at start-up, and then without effect on what is modelled.
- YAML text, node aliasing in yaml-cpp, and the stripping of `vehicle_can_node.ros__parameters` in `load_yaml`: parsed trees of mappings, sequences and scalars are the starting point.
- Lenient list access (`get_sv`, `get_iv`) and the loaded ID tables: modelled on values, since they are built once and then only read.
- Stamp and version text of the schema message: its tables are modelled.
- Wording of warnings and log output: a duplicate-ID warning is the triple of id, previous and new domain.
- Allocation failure while writing a bag message.
- SchemaTables.Sort: stands for `std::sort`; the ids it sorts by differ, so the comparison of names in the pairs is never reached.

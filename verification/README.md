# Verified model of the BACnet gateway

The program hosts BACnet points described by a CSV file, lets agents read and write them over JSON-RPC and
MQTT, and reads other BACnet and Modbus devices on request. This project models three parts of it and proves
what they promise, for all inputs and all runs.

**Hosted points.** `LoaderSpec` says what loading a file means by its history alone: every row's fate depends
on the events before it, and an auto-numbered row takes the least number that was never reserved and never
handed out. `Cursors` is the loader's scanning memory, `Reordering` the exact condition under which an explicit
number survives every order of the rows. `Registry` holds the program's own form: objects written in place, a
name map, and a loader that remembers only one cursor per kind and a set of reserved identifiers.
`Registry.PointRegistry.Load` is proved to do what the history says. `Updates`, `Bridge` and `Gateway` model the
three ways in (HTTP updates, MQTT set messages, MQTT commands), and `Runs` puts them together with BACnet writes,
polls, lost, reordered and repeated messages into one state machine; `Runs.RunServer` drives the registry itself
through exactly the states of that machine.

**Reading devices.** `Rpm` models the token list of a Read-Property-Multiple request, its parser and the
chunking, `Reading` the calls and their failure shapes, `Sessions` whole reads over a line on which calls come
through, are refused or break off, `Identifiers` the textual forms of object identifiers, `Discovery` the join of
answers with a device's object list, and `Supervisory` the regrouping of priority arrays into override reports
(command prioritization is clause 19.2 of ANSI/ASHRAE Standard 135).

**Modbus.** `Modbus` models word decoding down to the bits of binary32 (section 3.4 of IEEE 754-2019) and the
read session (the limit of 125 words is that of sections 6.3 and 6.4 of the MODBUS Application Protocol
V1.1b3).

Foreign behaviour enters as parameters that the theorems quantify over: whether a constructor builds an
object and `add_object` admits it (`Row.builds`, `Row.admits`), whether an object accepts a value (`Accepts`) and
a schedule each assignment (`Takes`), the vendor tables and the device (`Link`), what becomes of each call
(`Session.line`), the replies of client methods and request validators (`Foreign`), the Modbus client, and which
MQTT publications succeed.

## Where code and documentation disagree

The model follows the code.

- docs/csv-points.md:27 promises stable identifiers for explicit `Instance` values. That holds for files
  without auto-numbered rows (`LoaderSpec.ReorderStable`) and for rows that come first
  (`LoaderSpec.AppendKeeps`). In a mixed file an auto row in front can take the number an explicit row asks
  for (`LoaderSpec.MixedFileLosesExplicitRow`). `Reordering.KeepsInEveryOrderIff` gives the exact condition on
  the file: no other acceptable row asks for the number, and the auto rows of its kind cannot reach it.
- The comment at bacpypes_server/client_utils.py:695 says that an error on the priority array makes a point
  not commandable. A property error arrives as a string and counts as a value
  (`Discovery.ErrorLooksCommandable`); for an object whose request came through, the flag means what the comment
  says exactly when the device does not answer with such an error (`Discovery.FlagsFromDevice`).
- The comment at bacpypes_server/client_utils.py:401-403 promises one or more entries for each request. A chunk
  that is refused, or that names an object type without a class, gives one entry for all its requests
  (`Sessions.RefusalShifts`); entries stay in place exactly when that happens to no chunk of two or more
  (`Sessions.InPlaceIff`).
- docs/server-rpc.md:44 lists the replies of `server_update_points`. A name whose value is already right gets
  no entry at all, and a schedule gets an entry of its own kind (`Updates.RepliesExactly`, with both at once in
  `Updates.UndocumentedReplies`).

## Model

| member | source | states |
|---|---|---|
| LoaderSpec.LeastFree | bacpypes_server/server_utils.py:172-181 | the number found is in range, not taken, and everything before it is; none means all are taken |
| LoaderSpec.LoadAt | bacpypes_server/server_utils.py:144-457 | each row's outcome is decided by the outcomes of the rows before it |
| LoaderSpec.RowIsPlaced | bacpypes_server/server_utils.py:144-184 | a row gets an identifier if and only if it has a name and a supported type and its Instance cell holds a number in 0..4194303, or is empty while a number from 1 is left |
| LoaderSpec.RowIsHosted | bacpypes_server/server_utils.py:184-454 | it reserves the identifier if and only if no row did before, an analog row's CovIncrement is absent or positive, and the object builds; its point is hosted if and only if the application then admits the object |
| LoaderSpec.NamesByCells | bacpypes_server/server_utils.py:149-389 | the protected names are exactly those of reserving rows of type AO, BO or MSO, or of type AV, BV or MSV with Commandable = Y |
| LoaderSpec.PointByCells | bacpypes_server/server_utils.py:217-453 | a mapped point is its last hosted row's: identifier, commandable by exactly those cells, and the first value its type and Default cell give |
| Points.OfficeHours | bacpypes_server/server_utils.py:403-422 | a new schedule asks for 1 from Monday to Friday between 8:00 and 17:00, and for 0 after that and at weekends, and for its default, which is 0, before |
| LoaderSpec.AutoIsLeastFree | bacpypes_server/server_utils.py:171-188 | an auto row gets the least number from 1 that no earlier row reserved and no earlier auto row was handed, is never a duplicate, and is dropped only when all numbers are gone |
| LoaderSpec.AutoIncreases | bacpypes_server/server_utils.py:181-182 | auto numbers of a kind strictly increase in row order |
| LoaderSpec.CursorSuffices | bacpypes_server/server_utils.py:172-176 | a scan from a cursor that only looks at reserved identifiers finds what a scan from 1 over everything taken finds |
| LoaderSpec.ReservedOnce | bacpypes_server/server_utils.py:184-188 | no identifier is reserved by two rows |
| LoaderSpec.PlacedInRange | bacpypes_server/server_utils.py:167-170 | every number a row gets is in 0..4194303 and of the row's kind |
| LoaderSpec.IdentifiersUnique | bacpypes_server/server_utils.py:450-453 | points mapped under different names have different identifiers in range |
| LoaderSpec.AppendKeeps | bacpypes_server/server_utils.py:144-454 | rows appended to a file keep every point whose name they do not repeat, identifier included |
| LoaderSpec.SettledFates | bacpypes_server/server_utils.py:160-188 | with explicit, collision-free rows each row's fate depends on that row alone |
| LoaderSpec.ReorderStable | docs/csv-points.md:27 | reordering such a file changes neither the point map, nor the reserved identifiers, nor the protected names |
| LoaderSpec.MixedFileLosesExplicitRow | docs/csv-points.md:27 | a two-row file in which moving an auto row to the front loses the explicit row |
| Reordering.KeepsInEveryOrderIff | docs/csv-points.md:27 | an acceptable explicit row keeps its number in every order of the file if and only if it occurs once, no other acceptable row asks for it, and the number is 0, or no auto row of its kind gets as far as reserving one, or the auto rows of its kind, failing ones included, are too few to fill the gaps below it and reach it |
| Reordering.AutoCannotReach | bacpypes_server/server_utils.py:171-182 | an auto row that reserves n has n - 1 takers below it: auto rows and low explicit numbers together are at least n |
| Reordering.GoodAutoTakes | bacpypes_server/server_utils.py:171-182 | once as many auto rows as there are gaps below n have been numbered, the next one that builds reserves n |
| LoaderSpec.CommandableIsProtected | bacpypes_server/server_utils.py:249-453 | a mapped point built as commandable, or selected by type, is always a protected name |
| LoaderSpec.NotionsAgreeIff | bacpypes_server/rpc_methods.py:165-189 | selection by type and protection by name differ on a name exactly when a row of that name protected it and another, not commandable, holds it |
| LoaderSpec.NotionsAgree | bacpypes_server/rpc_methods.py:165-189 | with distinct names they agree on every mapped point, refused objects or not |
| Cursors.ScanEnd | bacpypes_server/server_utils.py:172-176 | the scan stops in range, passes over reserved numbers only, and stops at a number that is not reserved or past the range |
| Cursors.ScanDecides | bacpypes_server/server_utils.py:171-182 | the scan from the cursor finds the number the history decides, or none when the history drops the row |
| Cursors.CursorSkips | bacpypes_server/server_utils.py:172-176 | numbers the scan passes over are all held by explicit rows |
| LoaderSpec.CountsAreRows | bacpypes_server/server_utils.py:130-182 | the counts of auto-numbered and of reserving explicit rows count exactly those rows |
| Cursors.CursorsConserve | bacpypes_server/server_utils.py:130-182 | for every file and kind, cursor - 1 is auto numbers handed out plus scan iterations, those are at most the explicit rows of the kind, and every number below the cursor is taken |
| Registry.AssignNumber | bacpypes_server/server_utils.py:160-182 | the loop stops where the scan ends, in exactly that many iterations, whether a number is left or not, and moves one cursor past the number handed out |
| Registry.Identify | bacpypes_server/server_utils.py:157-184 | one row gets the identifier the history decides, and cursors and scan counts move exactly as the file says |
| Registry.PointRegistry.Load | bacpypes_server/server_utils.py:119-457 | the loader with cursors does exactly what the history says to names and points; its cursors and its counts of scan iterations are those of the file |
| Registry.PointRegistry.Keep | bacpypes_server/server_utils.py:184-453 | a row's name is protected and its identifier reserved before the application may refuse the object; earlier failures leave neither |
| Registry.PointRegistry.UpdatePoints | bacpypes_server/rpc_methods.py:100-161 | visiting the names in any order writes exactly the points the pointwise meaning changes and returns exactly its replies |
| Registry.PointRegistry.ReadCommandable | bacpypes_server/rpc_methods.py:165-189 | exactly the points selected by type, read out as float, string or integer by their type |
| Registry.PointRegistry.UpdateSchedule | bacpypes_server/client_utils.py:162-198 | only the named schedule changes, by the assignments before the first that is refused; reports whether all were taken |
| Points.ShowSeparates | bacpypes_server/rpc_methods.py:179-185 | a value of its point's type always reads out, and different values differently |
| Points.ShownAs | bacpypes_server/rpc_methods.py:179-185 | analog values read out as floats, binary ones as "active" and "inactive", multi-state ones as integers |
| Updates.Truncate | bacpypes_server/rpc_methods.py:146 | conversion to an integer rounds toward zero |
| Updates.DesiredMeans | bacpypes_server/rpc_methods.py:117-146 | what a number or boolean sets each type of point to: a binary point is active for 1 and true alone, a multi-state point drops the fraction |
| Updates.ChangedExactly | bacpypes_server/rpc_methods.py:100-161 | a point changes if and only if "changed" is reported, with both values; then it was named, unprotected, scalar and accepted the value |
| Updates.Reapply | bacpypes_server/rpc_methods.py:100-161 | the same update again changes nothing and reports no change |
| Updates.SplitUpdate | bacpypes_server/rpc_methods.py:102-161 | an update may be split by name and its parts applied in either order |
| Updates.SplitReplies | bacpypes_server/rpc_methods.py:101-161 | the replies to the parts make up the replies to the whole |
| Updates.RepliesExactly | bacpypes_server/rpc_methods.py:102-161 | which reply each name of an update gets, and exactly which names get none |
| Updates.UndocumentedReplies | docs/server-rpc.md:44 | an update with one missing and one unlisted reply |
| Updates.CompleteIsReplan | bacpypes_server/client_utils.py:162-198 | an update whose assignments are all taken sets what was asked for and makes the default the present value |
| Updates.ScheduleIsSet | bacpypes_server/client_utils.py:162-198 | a default and a week of seven days, all taken, are exactly what the schedule then holds, with the default as its present value |
| Updates.NumberMeans | bacpypes_server/client_utils.py:169-173 | integers stay integers, fractions stay fractions, booleans become 1 and 0 |
| Json.ScalarIff | bacpypes_server/models.py:41-44 | the scalars an update accepts are JSON booleans, integers and fractions, each kept as what it is |
| Updates.ChangesIff | bacpypes_server/client_utils.py:168-196 | the assignments taken change the schedule if and only if one of them sets something new |
| Updates.InterruptedSchedule | bacpypes_server/client_utils.py:168-196 | a refused week leaves the new default behind with the old present value |
| Updates.ReplanInParts | bacpypes_server/client_utils.py:162-198 | schedule default and week may be sent together or apart in either order |
| Bridge.ParseIsInverse | bacpypes_server/mqtt_bridge.py:111-121 | parsing gives a name if and only if the topic is that name's set topic and the name is non-empty, slash-free and not "bridge" |
| Bridge.OwnTopicIff | bacpypes_server/mqtt_bridge.py:268-287 | a state topic reads as a set command for m exactly for a point called "m/set" |
| Bridge.OwnTopicsAreSilent | bacpypes_server/mqtt_bridge.py:247-268 | no state topic of a slash-free name and no status topic reads as a set command |
| Bridge.ReplyNeedsTrigger | bacpypes_server/mqtt_bridge.py:273-287 | the bridge answers only messages that could carry a value for a set topic |
| Bridge.StatusCannotTrigger | bacpypes_server/mqtt_bridge.py:247-266 | none of the messages published on connecting can make the bridge answer |
| Bridge.SetReachesPoint | bacpypes_server/mqtt_bridge.py:124-161 | a set command whose payload names a value gives its unprotected point that value and changes no other |
| Bridge.AnsweredIff | bacpypes_server/mqtt_bridge.py:273-289 | a message is answered, with its point's state as it is then, if and only if it is on the set topic of a settable, mapped point and its payload names a value; any other changes nothing |
| Bridge.CommandIsRequest | bacpypes_server/mqtt_bridge.py:124-161 | the update a message asks for stands for exactly the value its payload names for the type of its point |
| Bridge.StateSays | bacpypes_server/mqtt_bridge.py:164-185 | a state message says on the point's own topic what its value is |
| Bridge.StatusSays | bacpypes_server/mqtt_bridge.py:247-266 | on connecting the bridge says on its three topics that it is online, who it is and which points it has |
| Bridge.BaseShape | bacpypes_server/mqtt_bridge.py:113 | the base topic is the configured one without the slashes at its end |
| Bridge.HandleMessage | bacpypes_server/mqtt_bridge.py:273-289 | one message changes the registry and is answered as the message's meaning says |
| Gateway.EchoesCorrelation | bacpypes_server/mqtt_rpc_gateway.py:119-233 | for any payload, its correlation_id, or its id in its absence, comes back: a text as it is, any other JSON value as it prints; the ack says "unknown" when there is none or it prints as nothing |
| Gateway.MalformedNotDispatched | bacpypes_server/mqtt_rpc_gateway.py:339-355 | a malformed command is never dispatched, and a dispatched command has a method name |
| Gateway.ErrorChangesNothingIff | bacpypes_server/mqtt_rpc_gateway.py:162-221 | an error answer means that nothing changed, except exactly for schedule updates that stop after an assignment set something new |
| Gateway.ParsesIff | bacpypes_server/mqtt_rpc_gateway.py:106-131 | a payload is a command with a name and parameters if and only if it is an object with a non-empty text as method and an object, or nothing, as params |
| Gateway.DefectIs | bacpypes_server/mqtt_rpc_gateway.py:113-130 | each parse error is reported for its own reason |
| Gateway.UpdateIsDone | bacpypes_server/mqtt_rpc_gateway.py:164-167 | an update, bare or wrapped, leaves every named, open, accepting scalar point at the value its scalar stands for and nothing else changed, and acks changed, with both values, exactly for the points whose value differs |
| Gateway.UpdateIsRefused | bacpypes_server/mqtt_rpc_gateway.py:164-167 | an update that is no object of scalars is an error and changes nothing |
| Gateway.ReadsAreAnswered | bacpypes_server/mqtt_rpc_gateway.py:162-171 | the hello and the two read-outs answer with the selected points as they read out, and with all values but schedules |
| Gateway.ScheduleIsRead | bacpypes_server/mqtt_rpc_gateway.py:172-174 | reading a schedule answers with the schedule, or with why there is none |
| Gateway.ScheduleIsUpdated | bacpypes_server/mqtt_rpc_gateway.py:175-177 | updating a schedule that takes everything leaves it with what was asked for, the default as present value, and acks it |
| Gateway.ScheduleIsStopped | bacpypes_server/mqtt_rpc_gateway.py:175-221 | an unreadable update or a week of other than seven days is refused; an update that the schedule stops is an error that leaves the assignments before it |
| Gateway.NoScheduleToUpdate | bacpypes_server/rpc_methods.py:226-234 | for any other name nothing changes and the ack says why |
| Gateway.ClientIsAnswered | bacpypes_server/mqtt_rpc_gateway.py:178-204 | a client method gets its name and parameters, and its reply or failure is the answer |
| Gateway.UnknownIff | bacpypes_server/mqtt_rpc_gateway.py:205-210 | a method is unknown if and only if its name is none of the fourteen documented ones |
| Gateway.WritersByName | bacpypes_server/mqtt_rpc_gateway.py:162-206 | only commands called server_update_points or server_update_schedule change a point |
| Gateway.ProtectedFromCommands | bacpypes_server/mqtt_rpc_gateway.py:140-221 | no command touches a protected point that is not a schedule |
| Gateway.RunSession | bacpypes_server/mqtt_rpc_gateway.py:339-363 | acks are the answers in command order, each computed on the state its predecessors left; when a session drops, handled minus acknowledged is 0 or 1 |
| Runs.CommandableIsolated | bacpypes_server/rpc_methods.py:104-111 | after any load and any run a point built as commandable holds exactly what BACnet clients wrote to it |
| Runs.IdentifiersStayUnique | bacpypes_server/server_utils.py:450-453 | identifiers stay unique and in range through any run |
| Runs.CommandableReadOut | bacpypes_server/rpc_methods.py:165-189 | for distinct names the commandable read-out lists exactly the protected points with what BACnet clients wrote last |
| Runs.OpenPointFollows | bacpypes_server/rpc_methods.py:100-161 | over any run an open point that accepts every value holds the last value that an update, a command, a set message or a BACnet client asked for |
| Runs.ScheduleFollows | bacpypes_server/rpc_methods.py:224-249 | a schedule that takes an HTTP update holds the default and week asked for, with the default as present value |
| Runs.MessagesInFlight | bacpypes_server/mqtt_bridge.py:268-287 | what others publish is in flight until it is delivered or lost, and may be repeated |
| Runs.StepsArePublished | bacpypes_server/mqtt_bridge.py:247-316 | what polling, delivering and connecting put in flight |
| Runs.ValuesKeepType | bacpypes_server/rpc_methods.py:100-189 | at any time every value has its point's type, schedules have seven days, and the commandable read-out never fails |
| Runs.RunServer | bacpypes_server/server_utils.py:119-457 | loading the registry and taking the steps one by one on its objects reaches exactly the state the run theorems speak of |
| Runs.NoEcho | bacpypes_server/mqtt_bridge.py:268-317 | over any run the bridge answers at most as many set commands as others published or the broker repeated for them, whatever the points are called |
| Runs.CountersCount | bacpypes_server/mqtt_bridge.py:268-287 | the counters of that bound count set commands of others, repeated deliveries of those, and answered deliveries |
| Identifiers.NormalizesPlain | bacpypes_server/client_utils.py:57-71 | every spacing of "type,instance" normalizes to the canonical form |
| Identifiers.NormalizesPaired | bacpypes_server/client_utils.py:65-68 | so does every spacing of "(type, instance)" |
| Identifiers.CanonicalSeparates | bacpypes_server/client_utils.py:57-71 | different identifiers have different canonical forms |
| Identifiers.CanonicalShape | bacpypes_server/client_utils.py:57-71 | the canonical form is type name, comma and number, without spaces |
| Identifiers.DigitsCount | bacpypes_server/models.py:31 | digits count by tens |
| Identifiers.ParseIdentifierIff | bacpypes_server/models.py:20-37 | validation accepts a text as an identifier if and only if its type is known, its number in range, and the text writes it with any spacing and leading zeros |
| Identifiers.ParseReadsBack | bacpypes_server/models.py:20-37 | validating any rendering gives back the identifier, or the error that fits it |
| Rpm.FlattenParse | bacpypes_server/client_utils.py:312-360 | printing the parsed groups gives the tokens back |
| Rpm.ParseShape | bacpypes_server/client_utils.py:312-360 | groups behind the first are named by a token with a colon or comma, later properties have neither, and only the last group can be without properties |
| Rpm.RoundTripIff | bacpypes_server/client_utils.py:312-360 | groups survive printing and parsing if and only if they are expressible |
| Rpm.RequestsParseIff | bacpypes_server/rpc_methods.py:297-305 | requests parse back one group each in order if and only if every identifier after the first has a separator |
| Rpm.ParseTokens | bacpypes_server/client_utils.py:312-360 | the popping loop yields the groups, or the first thing in token order that the vendor tables do not accept |
| Rpm.ChunksPartition | bacpypes_server/client_utils.py:408-409 | chunks concatenate to the requests, none is empty, all but the last are full |
| Rpm.CheckIsFirstFault | bacpypes_server/client_utils.py:312-360 | a request is accepted unchanged if and only if the tables know all of it; otherwise its first fault decides between one error entry and an exception |
| Reading.ReadMultipleProperties | bacpypes_server/client_utils.py:295-391 | when one call throws, and what it returns otherwise: an entry for each answer, or one error entry for everything |
| Reading.ReadChunked | bacpypes_server/client_utils.py:394-427 | the entries of the chunks in order; the length is the sum of one a request for a call that throws, one an answer, or one for everything |
| Reading.EntrySays | bacpypes_server/client_utils.py:74-101 | values arrive as they are, errors of the device as texts, under the identifier and index the device gave |
| Reading.CallSizes | bacpypes_server/rpc_methods.py:295-296 | no call carries more than 25 requests and only the last may carry fewer |
| Reading.ValidatedParseBack | bacpypes_server/models.py:20-37 | requests whose identifiers pass validation parse back one group each in order, whatever the vendor tables say |
| Reading.ReadAllOrNothing | bacpypes_server/rpc_methods.py:295-308 | fails if and only if some chunk raises; otherwise gives the same entries |
| Reading.ChunkingDoesNotShow | bacpypes_server/client_utils.py:394-427 | with a device that answers group by group, any chunk size gives the result of one unchunked call |
| Sessions.SessionLength | bacpypes_server/client_utils.py:405-427 | the result list is as long as the request list, less all but one request of each refused chunk |
| Sessions.SessionCarries | bacpypes_server/client_utils.py:405-427 | every request whose call came through has its answer in a place shifted by earlier refusals, and every answer has its request |
| Sessions.InPlaceIff | bacpypes_server/client_utils.py:401-427 | entry i answers request i throughout if and only if no refused chunk has two or more requests |
| Sessions.RefusalShifts | bacpypes_server/client_utils.py:369-371 | a refused chunk of two leaves one entry for two requests |
| Sessions.ThroughIff | bacpypes_server/client_utils.py:314-371 | a request comes through if and only if the line lets its call through and the vendor tables know every request in its chunk |
| Discovery.LastAnswer | bacpypes_server/client_utils.py:555-559 | finds the last answer for an identifier, or there is none |
| Discovery.Discover | bacpypes_server/client_utils.py:542-610 | one output object a listed object, in order, named by its last answer or marked as missing, flagged by some priority-array answer with a value |
| Discovery.DiscoveryCallSizes | bacpypes_server/client_utils.py:553-584 | no call of discovery carries more than 15 requests and only the last may carry fewer |
| Discovery.AskedTypes | bacpypes_server/client_utils.py:574-584 | the types asked for a priority array are those of the hosted kinds that can be commandable, and three further types of values |
| Discovery.AnswerFound | bacpypes_server/client_utils.py:555-567 | for distinct objects exactly one entry counts for a request that came through, wherever it was moved, and none for one that was refused or broke off |
| Discovery.NamesFromDevice | bacpypes_server/client_utils.py:545-567 | end to end, a name is what the device says for an object whose type has a class and whose own request came through, and the marker for every other |
| Discovery.FlagsFromDevice | bacpypes_server/client_utils.py:572-594 | end to end, the flag is set exactly for commandable types whose own request came through with a value or a property error, and means an array exactly without such errors |
| Discovery.FlagsByKind | bacpypes_server/client_utils.py:572-594 | for each hosted kind by its name in the BACnet vocabulary: outputs and value objects are flagged exactly when their own request came through with a value or a property error, inputs and schedules never |
| Discovery.ErrorLooksCommandable | bacpypes_server/client_utils.py:79-80 | a device without any priority array has its only object flagged |
| Supervisory.SortSorts | bacpypes_server/client_utils.py:719-720 | slots are ordered by index and none is lost |
| Supervisory.SortIsStable | bacpypes_server/client_utils.py:719-720 | slots of one index keep their order |
| Supervisory.GroupSlots | bacpypes_server/client_utils.py:702-720 | for every identifier the sorted slots of all its answers |
| Supervisory.Summarize | bacpypes_server/client_utils.py:691-809 | the flat list, the groups as a function of it, and counters that add up; every group lists the level of each of its overrides and carries the id and name of one found object, and so does every flat entry, with one of that object's overrides |
| Supervisory.FlatMisses | bacpypes_server/client_utils.py:724-777 | no override of a commandable object is missing from the flat list |
| Supervisory.SlotSays | bacpypes_server/client_utils.py:741-777 | what counts as an override in a slot of any answer, with which level, type and value |
| Supervisory.AnswerSays | bacpypes_server/client_utils.py:706-718 | which slots an answer brings, whole lists and single indices alike |
| Supervisory.GroupsConserve | bacpypes_server/client_utils.py:767-788 | groups are distinct and non-empty, hold the flat list's overrides of their object in order, add up to it, and are called multiple exactly when longer than one |
| Supervisory.OverriddenHaveArrays | bacpypes_server/client_utils.py:734-807 | there are at most as many overridden points as points with a priority array |
| Supervisory.SparseExactly | bacpypes_server/client_utils.py:741-777 | the overrides are exactly the commanded slots, with level index + 1 |
| Supervisory.SparseIncreases | bacpypes_server/client_utils.py:742-744 | levels strictly increase |
| Supervisory.FirstIsWinning | bacpypes_server/client_utils.py:742-777 | the first override is the slot that controls the point; without overrides nothing is commanded |
| Supervisory.WinningIff | bacpypes_server/client_utils.py:742-777 | a level controls the point if and only if it is that of the first override; there is none exactly when nothing is commanded |
| Supervisory.RefillRebuilds | bacpypes_server/client_utils.py:741-777 | writing the overrides back rebuilds the array, but for slots that could not be read |
| Supervisory.RowsSay | bacpypes_server/client_utils.py:635-649 | the single-point read lists every slot at its level, those without a command as null |
| Supervisory.AgreesWithRows | bacpypes_server/client_utils.py:635-649 | the report and the single-point read list the same levels, types and values |
| Supervisory.DeviceArrayReported | bacpypes_server/client_utils.py:702-777 | the device's array reaches the report through any chunking and whatever became of other calls if its own request comes through; otherwise nothing is reported |
| Supervisory.CountExactly | bacpypes_server/client_utils.py:728-740 | the count of points with a priority array is the number of flagged objects whose second request came through with anything but an empty list |
| Supervisory.CountedOverBothReads | bacpypes_server/client_utils.py:572-740 | what being counted takes from the devices over both reads; a property error in the second read counts and reports no override |
| Supervisory.ErrorIsCounted | bacpypes_server/client_utils.py:728-740 | a device without any priority array has its only object counted as having one, with no override |
| Modbus.DecodesEncoded | bacpypes_server/modbus_service.py:35-51 | decoding inverts encoding for every integer that fits the kind |
| Modbus.EncodesDecoded | bacpypes_server/modbus_service.py:39-51 | encoding inverts decoding for every pair of words |
| Modbus.WordsMean | bacpypes_server/modbus_service.py:35-52 | the first word is the more significant one, signed kinds are two's complement, further words do not count |
| Modbus.FloatsGrow | bacpypes_server/modbus_service.py:43-52 | on non-negative finite patterns float32 is strictly monotone in uint32 |
| Modbus.SignFlips | bacpypes_server/modbus_service.py:46-52 | patterns that differ in the top bit only decode to opposite values |
| Modbus.FloatsSeparate | bacpypes_server/modbus_service.py:46-52 | finite patterns decode to the same float only if equal or both zeros |
| Modbus.OneIsOne | bacpypes_server/modbus_service.py:46-52 | the pattern 0x3F800000 is the number one |
| Modbus.FloatFormula | bacpypes_server/modbus_service.py:46-52 | every pattern without sign bit decodes to (leading + fraction / 2^23) * 2^(exponent - 127), with subnormal numbers, infinity and not-a-number where the standard has them |
| Modbus.FloatDoubles | bacpypes_server/modbus_service.py:46-52 | one more in the exponent doubles the decoded number |
| Modbus.FloatSpacing | bacpypes_server/modbus_service.py:46-52 | consecutive patterns are a power of two apart that depends on their exponent alone, subnormal numbers as far as those of the first exponent |
| Modbus.ScaleThenOffset | bacpypes_server/modbus_service.py:56-68 | scaling comes before the offset; a missing one is neutral, and without both the value stays as it is |
| Modbus.ReadingBelongs | bacpypes_server/modbus_service.py:99-187 | a reading carries its spec's fields, succeeds exactly when words came back, and its words are 16-bit |
| Modbus.ReadingErrors | bacpypes_server/modbus_service.py:142-187 | a reading has no error exactly when enough words came back, and is decoded then |
| Modbus.ReadingSays | bacpypes_server/modbus_service.py:120-187 | the exact error of a reading, and that it reports the decoded words, scaled |
| Modbus.CheckIff | bacpypes_server/modbus_service.py:108-118 | a spec is valid if and only if it asks for 1..125 words, and for two or more where its kind needs them |
| Modbus.ReadRegisters | bacpypes_server/modbus_service.py:71-196 | returns one reading a spec in order if and only if there are at most 32 valid specs; otherwise reports the first bad one |

## Left out

- Transport of BACnet, MQTT, Modbus and HTTP, reconnect delays, the poll interval, timestamps in acks, task start and cancellation: foreign I/O; only the order of steps is kept.
- Units of points and the fuzzy unit matching: they influence no value or identifier.
- CSV, JSON and number lexing: rows and payloads are taken as read; the plain space is the only whitespace; instance numbers in identifiers are plain decimal digits, without signs or underscores.
- Floating-point rounding, NaN and overflow: analog values and scaling use real numbers; only the bits of float32 are exact, and scaling a float that is not finite is not followed.
- Validation of schedule requests: reading a request is a parameter; only the rule of seven days is modelled. Building the entries of a week is one step with assigning it.
- Reading the object list itself, its fallback by index and the device object's removal: discovery starts from the filtered list.
- Discovery.Discover: asks that type names are non-empty and free of spaces, commas and parentheses, as all names of the vocabulary are.
- Rpm.ChunksPartition: speaks of chunk sizes from 1 on; the program only uses 15 and 25.
- Reading.ChunkingDoesNotShow: needs a device that answers group by group and requests that the vendor tables know.
- Sessions.SessionCarries: speaks of devices with one answer for each group, as for plain properties; other devices are covered by Reading.ReadChunked and Reading.ChunkingDoesNotShow.
- Gateway.RunSession: publishing is an arbitrary oracle of success for each ack; a delivery that is repeated by the broker counts as another command.
- Runs.NoEcho: takes as given that the JSON object of a state message is no number or on/off word; a set command that the broker repeats, such as a retained one after a reconnect, counts as one more from outside.
- Runs.ValuesKeepType: takes as given that the BACnet stack keeps values of another type, and weeks of other than seven days, out of its own writes.
- Values in `server_read_all_values` are given as they are; how they encode is not modelled.
- Who-Is, router listing, single reads and writes, authentication, feature flags and the document builders: thin or single-branch.

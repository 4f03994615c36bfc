# Verified models of zkonvif's own algorithms

zkonvif is mostly SOAP plumbing around vendored libraries. These Dafny files model the parts of
it that compute or coordinate something, in the form the code has (classes with updated fields,
arrays changed in place, loops), and prove what they are for.

| files | what they model |
|---|---|
| `EngineCodec`, `EngineSpec`, `EngineRoundTrip`, `EngineLimits`, `EngineCanonical`, `Engine` | Common C++ `Engine`: writing a pointer graph to a flat stream and reading it back |
| `GetoptSpec`, `GetoptRun`, `Getopt`, `GetoptLetters`, `GetoptReports` | GNU `getopt`: scanning and permuting the argument vector over many calls |
| `HeartbeatSpec`, `Heartbeat`, `HeartbeatLimits`, `PongHistory`, `HeartbeatPrograms` | the `ping` and `pong` programs and the protocol between them |
| `ThreadQueue` | the semaphore-driven worker queue |
| `FixedBuffer`, `BufferMonitor`, `BufferCounts`, `BufferSleep` | the bounded ring buffer, its monitor, and which of its threads can sleep together |
| `Julian` | Julian day numbers (Fliegel and Van Flandern) |
| `Crc`, `CrcDigest` | table-driven CRC32 and shift-trick CRC16 |
| `Words`, `Md5Spec`, `Md5Laws`, `Md5Machine`, `Md5Empty`, `Md5Rounds`, `Md5` | streaming MD5 on 64-bit variables, against RFC 1321 |
| `NameHash`, `MapOrder`, `NameOrder`, `MapTables` | the intrusive hash table, its free list and its cursor |
| `Symbols` | the case-insensitive symbol table of key data |
| `DomShape`, `Dom`, `DomFind` | document trees: building, preorder walk, searching iterator |
| `Cidr` | network masks and membership |
| `Wrappers` | bytes, optional values, results, distinctness |

## How things are modelled

* A loop or method that changes state is a method here, proved against a function of the old
  state; the properties are lemmas about those functions. Ghost arguments (`g`, `order`, `d`, `k`)
  only name the structure that is on the heap.
* Engine: a class is a name with a list of fields as its write method emits them. What a read
  method reads next may depend on the class and the fields read so far, NULL pointers included
  (`Schema`). The stream is a byte list, words are little-endian. A stream that ends early is an
  error.
* getopt: argv is an array of strings. The return code, `optarg`, `optind` and the stored index
  are modelled; `POSIXLY_CORRECT` is a parameter.
* Heartbeat: time is real, `time(0)` is its floor, handling takes no time, `select` never
  oversleeps. For the composed theorem our datagrams arrive at once and none is lost, and pings
  come from one host only (a second one would take the remote over). Any other traffic may reach
  ping. Anything but a ping may reach pong, where it restarts the wait; how many such datagrams
  come between two pongs is the parameter `m` of the theorem. What `malloc` leaves in a new
  target's time field is arbitrary.
* ThreadQueue and Buffer: state machines whose steps are the stretches between lock operations,
  with the semaphore of `semaphore.cpp` (an expired wait still takes a unit that is there) and
  condition variables that may wake unasked. Calls of the queue's hooks are logged.
* Julian: C's truncating division is written out; the statements on doubles are truncated exact
  quotients.
* Digests: words are bit lists. `unsigned long` has 64 bits, so nothing in MD5 is masked, and the
  last byte of a message word is shifted as an `int` and sign-extended. `Md5Machine` states the
  standard's algorithm once more with the operators of 32-bit words; the digests are the same.
* Tables: chains of all buckets laid end to end are one list (`order`) sorted by bucket; table
  sizes are arbitrary positive numbers. `stricmp` folds A to Z.
* Trees: a preorder list of elements with their depths stands for the links. `soap_tag_cmp` is an
  arbitrary predicate.
* Addresses are octet arrays of any length.

## Where the code and what is said about it differ

* `getopt.c` documents a leading `+` or `-` of the option letters as a mode; the code strips it
  only in the call that initialises. In later calls it is an option letter
  (`GetoptLetters.PrefixBecomesLetter`). No run shows it exactly under the condition of
  `GetoptLetters.RunsAgreeIff`, which speaks of the letters, of long options that can miss their
  argument, and of whether a `-` can come up behind another letter in `getopt_long_only`.
* Nothing in `pong` keeps a stray datagram from putting off the next pong. Whether m of them
  between two pongs can take an answering target offline is decided for all intervals by
  `HeartbeatLimits.NeverTimesOutIff`; with the shipped ones three do no harm and four can
  (`HeartbeatLimits.DefaultsBearThree`). Without strays, pong intervals of up to 7 seconds
  keep targets online, and longer ones do not (`HeartbeatLimits.OtherPongIntervals`).
* `find` promises matching elements. The increment operator also stops at elements without a
  name, and ignores the namespace when no name is sought; `DomFind.SearchIsExact` gives the exact
  condition under which a search is right.
* `Date` accepts days 29 to 31 of every month, and its mark for an invalid date is the number of a
  real one (`Julian.AcceptedRoundTripsIffDate`, `Julian.InvalidMark`). The reverse conversion casts
  to `int` and is defined up to day 2147447758 only (`Julian.CastsFitIff`).
* MD5's second counter counts overflows of a 64-bit first counter, and the stored length takes the
  low halves of both, so lengths from 2^29 up to 2^61 bytes are wrong (`Md5.LengthFieldExact`).
* A second `getDigest` digests the empty message (`Md5.DigestTwice`).
* `CRC32Digest::initDigest` leaves `crc32` as it was until a byte arrives, so what is reported in
  between is the checksum of the empty message only if it was so before
  (`CrcDigest.CRC32Digest.InitDigest`).
* `Buffer` wakes one thread per change without knowing which kind it needs. Producers and consumers
  can sleep at once exactly when there are more of either kind than objects fit, and all of them
  exactly when there are more than twice as many threads as objects fit
  (`BufferSleep.BothKindsSleepIff`, `BufferSleep.EveryoneSleepsIff`).
* `soap_dom_element::add` leaves the added element's `next` as it was, so an element taken from
  another tree brings its next sibling along, which still has the old parent (`Dom.Element.Add`).
  The other tree still links to the element and is spoilt in any case (`Dom.ParentInside`).
* `MapTable::addObject` and `addFree` do not notice an object that is still on the free list, and
  spoil the table then and only then (`MapTables.MapTable.AddObject`).
* The stream format cannot carry strings with NUL bytes or 2^32 - 1 characters, nor more than
  2^32 - 1 objects (`EngineCodec.StringRoundTrip`, `EngineLimits.GraphRoundTripIff`).

## Model

| member | source | states |
|---|---|---|
| EngineCodec.WordRoundTrip | 3rd/commoncpp2-1.8.1/src/engine.cpp:151-247 | every number written as an unsigned 32-bit word is read back modulo 2^32, whatever follows it |
| EngineCodec.StringRoundTrip | 3rd/commoncpp2-1.8.1/src/engine.cpp:397-413 | a string is read back as written if and only if it has no NUL byte and is shorter than 2^32 - 1 bytes |
| EngineSpec.WriteRef | 3rd/commoncpp2-1.8.1/src/engine.cpp:253-292 | the writer as a function of the archive so far: ids and class ids once given are never changed, and it terminates on cyclic graphs because unarchived objects run out |
| EngineSpec.ReadRef | 3rd/commoncpp2-1.8.1/src/engine.cpp:321-354 | the reader of a pointer: it consumes input, archived objects stay, and a delivered id is a valid archive position |
| EngineSpec.ReadObject | 3rd/commoncpp2-1.8.1/src/engine.cpp:359-371 | a body between its markers is read: bytes are consumed and the archive grows |
| EngineSpec.ObjectTakesPosition | 3rd/commoncpp2-1.8.1/src/engine.cpp:359-371 | whatever its body holds, an object is the first new one in the archive, and the positions before it stay as they were: what lets cycles close |
| EngineSpec.ReadClass | 3rd/commoncpp2-1.8.1/src/engine.cpp:376-391 | reading a class id or a new class name consumes at least a word and leaves the objects alone |
| EngineRoundTrip.WriteRefValid | 3rd/commoncpp2-1.8.1/src/engine.cpp:264-291 | every write keeps the archive duplicate-free and inside any link-closed set, with the stored class names exactly those of the archived objects, each once |
| EngineRoundTrip.ClassRoundTrip | 3rd/commoncpp2-1.8.1/src/engine.cpp:271-280 | class table of writer and reader stay equal over one class entry, new or known |
| EngineRoundTrip.RefRoundTrip | 3rd/commoncpp2-1.8.1/src/engine.cpp:253-354 | reading one written pointer, NULL, archived or new, consumes exactly its bytes and delivers the id of its object |
| EngineRoundTrip.NewRefRoundTrip | 3rd/commoncpp2-1.8.1/src/engine.cpp:264-287 | a first visit, with the body nested in it, is read back as the next archive position |
| EngineRoundTrip.FieldsRoundTrip | 3rd/commoncpp2-1.8.1/src/engine.cpp:284-284 | an object's body, from any field on, is read back field by field in step with the writer |
| EngineRoundTrip.RootsRoundTrip | 3rd/commoncpp2-1.8.1/src/engine.cpp:253-391 | successive writes on one engine are matched by successive reads, from any pair of synchronised states |
| EngineRoundTrip.GraphRoundTrip | 3rd/commoncpp2-1.8.1/src/engine.cpp:253-391 | for every persistable graph and list of roots, reading into NULL pointers yields a graph isomorphic to the part reachable from the roots, sharing and cycles included, consumes the stream exactly, and stores each class name once |
| EngineRoundTrip.IdsExhausted | 3rd/commoncpp2-1.8.1/src/engine.cpp:268-270 | the bound of 2^32 - 1 objects is tight: one object more is read back as NULL or as another object |
| EngineLimits.NoStreamCarries | 3rd/commoncpp2-1.8.1/src/engine.cpp:321-354 | no byte stream at all makes the reader rebuild more than 2^32 - 1 objects |
| EngineLimits.PartRoots | 3rd/commoncpp2-1.8.1/src/engine.cpp:253-292 | what is written depends on the reachable part only |
| EngineLimits.GraphRoundTripIff | 3rd/commoncpp2-1.8.1/src/engine.cpp:253-371 | what is read back is isomorphic to the reachable part if and only if that has at most 2^32 - 1 objects |
| EngineCanonical.RootsCanonical | 3rd/commoncpp2-1.8.1/src/engine.cpp:253-292 | in every written stream ids are dense: a new object is announced with the number of objects so far, a new class with the number of names so far and a new name; strings hold no NUL byte |
| EngineCanonical.CanonicalIsWritten | 3rd/commoncpp2-1.8.1/src/engine.cpp:321-391 | conversely, any such stream that the reader accepts is what the writer makes of what was read: no marker skipped, no byte dropped, no id taken for another |
| EngineCanonical.RefRegistered | 3rd/commoncpp2-1.8.1/src/engine.cpp:346-353 | into NULL pointers only objects of registered classes are read, however deep |
| EngineCanonical.Refused | 3rd/commoncpp2-1.8.1/src/engine.cpp:351-366 | an unregistered class and a missing start marker are errors of their own kinds |
| EngineCanonical.EndRefused | 3rd/commoncpp2-1.8.1/src/engine.cpp:367-370 | so is a missing end marker |
| EngineCanonical.PairBytes | 3rd/commoncpp2-1.8.1/src/engine.cpp:264-291 | the stream of two objects that point to each other, byte by byte |
| EngineRoundTrip.IdsArePreorder | 3rd/commoncpp2-1.8.1/src/engine.cpp:264-291 | object ids number the objects in depth-first preorder from the roots, computed independently with an explicit stack |
| Engine.OutputEngine.WriteObject | 3rd/commoncpp2-1.8.1/src/engine.cpp:253-292 | the recursive method with its two maps appends exactly what WriteRef says and archives exactly what it says, on heap objects |
| Engine.OutputEngine.WriteClassOf | 3rd/commoncpp2-1.8.1/src/engine.cpp:271-280 | class id, and name when new |
| Engine.InputEngine.ReadPointer | 3rd/commoncpp2-1.8.1/src/engine.cpp:321-354 | the recursive method with its two vectors follows ReadRef, errors included, for NULL and preallocated pointers; the objects it adds are fresh |
| Engine.InputEngine.ReadInto | 3rd/commoncpp2-1.8.1/src/engine.cpp:359-371 | archives the object, checks both markers, and leaves it with the fields ReadObject delivers |
| Engine.InputEngine.ReadClassName | 3rd/commoncpp2-1.8.1/src/engine.cpp:376-391 | class id, or new name appended to the vector |
| Engine.SaveAndRestore | 3rd/commoncpp2-1.8.1/tests/Test_Engine.cpp:280-333 | a graph of heap objects written and read into a NULL pointer comes back as fresh, distinct objects, one for each reachable object, with equal classes and data and the same links |
| GetoptSpec.Lookup | 3rd/commoncpp2-1.8.1/src/getopt.c:651-691 | an exact name wins; else the first abbreviation, if all others mean the same; ambiguous only with two that differ; nothing exactly when no name starts with the text |
| GetoptSpec.Decode | 3rd/commoncpp2-1.8.1/src/getopt.c:624-972 | decoding shortens the element or uses up one or two elements, and never reports the end code |
| GetoptRun.ParsePartitions | 3rd/commoncpp2-1.8.1/src/getopt.c:547-622 | the reference reading splits any vector into a stable partition: a shuffle of its options (with their arguments and a consumed --) and its non-options |
| GetoptRun.ScanLeadsOn | 3rd/commoncpp2-1.8.1/src/getopt.c:776-972 | decoding one option reports the reference reading's next event and leaves the promised end unchanged |
| GetoptRun.ExchangeLeadsOn | 3rd/commoncpp2-1.8.1/src/getopt.c:302-380 | exchanging the two segments leaves the promised end unchanged |
| GetoptRun.GatherLeadsOn | 3rd/commoncpp2-1.8.1/src/getopt.c:558-574 | moving processed options in front and skipping non-options leaves the promised end unchanged |
| GetoptRun.DashDashEnds | 3rd/commoncpp2-1.8.1/src/getopt.c:581-604 | a -- ends the scan with the promised vector and optind |
| GetoptRun.CallLeadsOn | 3rd/commoncpp2-1.8.1/src/getopt.c:509-972 | every call in PERMUTE mode either ends with the promised vector and optind or reports the next event of the reference reading and still leads there |
| GetoptRun.CallProgresses | 3rd/commoncpp2-1.8.1/src/getopt.c:547-972 | every reporting call keeps first <= last <= optind <= argc and comes closer to the end, so the caller's loop terminates |
| GetoptRun.RunReaches | 3rd/commoncpp2-1.8.1/src/getopt.c:509-972 | from any valid state, calling until the end yields the promised vector, optind and events |
| GetoptRun.WholeRun | 3rd/commoncpp2-1.8.1/src/getopt.c:509-972 | a whole run leaves options in original order, then non-options in original order, optind at the boundary, and reports what one left-to-right reading of the original vector reports |
| GetoptRun.OtherOrderingsSweep | 3rd/commoncpp2-1.8.1/src/getopt.c:594-615 | in the other two modes a whole run leaves the vector as it was, and reports and passes what one reading in order does, with the letters that each call sees |
| GetoptRun.AnyRun | 3rd/commoncpp2-1.8.1/src/getopt.c:509-972 | the outcome of a whole run in any of the three modes |
| Getopt.RotateShortBottom | 3rd/commoncpp2-1.8.1/src/getopt.c:340-356 | swapping the shorter bottom segment with the far end of the top segment leaves a smaller rotation with the same result |
| Getopt.RotateShortTop | 3rd/commoncpp2-1.8.1/src/getopt.c:357-373 | the same for a shorter top segment |
| Getopt.FindLongOption | 3rd/commoncpp2-1.8.1/src/getopt.c:644-693 | the single loop finds the exact name, else the first abbreviation unless a later one differs in meaning |
| Getopt.Scanner.ExchangeSegments | 3rd/commoncpp2-1.8.1/src/getopt.c:302-380 | the swaps in place turn the adjacent segments around for all lengths, touch nothing else, and leave first_nonopt and last_nonopt on the moved block |
| Getopt.Scanner.Initialize | 3rd/commoncpp2-1.8.1/src/getopt.c:387-451 | ordering from the prefix of the option letters or the environment; nothing skipped yet |
| GetoptLetters.RunsAgreeIff | 3rd/commoncpp2-1.8.1/src/getopt.c:403-418 | with the mode prefix in the letters of every call but the first, all runs report what they would with the stripped letters, if and only if the prefix is harmless: where it can come up it is an option letter anyway, of the kind the colons behind it give, and under a leading colon no short or long option can miss its argument |
| GetoptLetters.HarmlessIff | 3rd/commoncpp2-1.8.1/src/getopt.c:527-533 | outside getopt_long_only the condition is on the kind of the prefix letter, and on short and long options that require an argument |
| GetoptLetters.SameRuns | 3rd/commoncpp2-1.8.1/src/getopt.c:624-972 | an unnoticed prefix changes no run, from any place the scan can be at in an element |
| GetoptLetters.SameIsHarmless | 3rd/commoncpp2-1.8.1/src/getopt.c:649-749 | for every way in which a prefix is not harmless some vector shows it, also where elements are tried as long options first |
| GetoptLetters.PrefixBecomesLetter | 3rd/commoncpp2-1.8.1/src/getopt.c:527-533 | an input on which they differ: with "+a", -+ is reported as an option by the second call |
| GetoptReports.ValueAfterEquals | 3rd/commoncpp2-1.8.1/src/getopt.c:697-702 | an option that takes an argument gets, of --name=value, the value, with 0 or its value as code |
| GetoptReports.ValueRefused | 3rd/commoncpp2-1.8.1/src/getopt.c:703-723 | one that takes none is not reported if it is given one |
| GetoptReports.ValueIsNext | 3rd/commoncpp2-1.8.1/src/getopt.c:725-739 | without a value a required argument is the next element, used up with the option, or is reported missing |
| GetoptReports.NoValue | 3rd/commoncpp2-1.8.1/src/getopt.c:740-748 | other options take nothing |
| GetoptReports.NotFound | 3rd/commoncpp2-1.8.1/src/getopt.c:755-773 | what no name starts with, or is ambiguous, is an error whatever follows a = |
| GetoptReports.OneDash | 3rd/commoncpp2-1.8.1/src/getopt.c:639-642 | with getopt_long_only one dash does as well as two |
| GetoptReports.OneDashLetters | 3rd/commoncpp2-1.8.1/src/getopt.c:638-773 | unless no long name starts with the text, or it is a single option letter: then it is read as letters, and is an error if the first one is none |
| GetoptReports.RequiredArgument | 3rd/commoncpp2-1.8.1/src/getopt.c:939-969 | a letter with one colon gets the rest of its element, else the next element, else the report of a missing argument |
| GetoptReports.OptionalArgument | 3rd/commoncpp2-1.8.1/src/getopt.c:927-938 | a letter with two colons gets the rest of its element and never the next one |
| GetoptReports.Joined | 3rd/commoncpp2-1.8.1/src/getopt.c:776-800 | -abc is -a -bc, for letters without arguments and for unknown ones |
| GetoptReports.OptionsHaveADash | 3rd/commoncpp2-1.8.1/src/getopt.c:544-544 | a dash and something behind it make an option; a single dash is an argument |
| GetoptReports.DoubleDash | 3rd/commoncpp2-1.8.1/src/getopt.c:581-592 | -- is used up and nothing behind it is read as an option |
| GetoptReports.ModeOfLetters | 3rd/commoncpp2-1.8.1/src/getopt.c:405-418 | at an argument that is no option, a run with + or POSIXLY_CORRECT ends, one with - passes it on with code 1 and goes on, any other goes on and leaves it first behind the options |
| GetoptReports.ModeEnds | 3rd/commoncpp2-1.8.1/src/getopt.c:597-615 | where runs of the first two kinds end, however they began |
| GetoptReports.MovedBack | 3rd/commoncpp2-1.8.1/src/getopt.c:549-556 | a caller that moves optind back far enough has the vector read from there as in a new run |
| Getopt.Scanner.GatherNonOptions | 3rd/commoncpp2-1.8.1/src/getopt.c:558-574 | the permuting step in place refines Gather |
| Getopt.Scanner.SkipDashDash | 3rd/commoncpp2-1.8.1/src/getopt.c:581-592 | the -- step in place refines DashDash |
| Getopt.Scanner.Advance | 3rd/commoncpp2-1.8.1/src/getopt.c:549-592 | the whole advance to the next element in place refines Seek |
| Getopt.Scanner.ScanLong | 3rd/commoncpp2-1.8.1/src/getopt.c:639-774 | the long-option branch leaves optind, nextchar, optarg and the index as Decode says, or falls through to short options exactly when Decode does |
| Getopt.Scanner.ScanShort | 3rd/commoncpp2-1.8.1/src/getopt.c:776-972 | the short-option branch, with its required and optional arguments, leaves what DecodeShort says |
| Getopt.Scanner.GetoptInternal | 3rd/commoncpp2-1.8.1/src/getopt.c:509-972 | one call on the persistent state returns and stores what Call says, initialisation and empty vectors included |
| Getopt.Scanner.ScanAll | 3rd/commoncpp2-1.8.1/src/getopt.c:509-972 | the caller's loop over the real array in any mode, each call with the letters it really sees: a stable partition with optind at the boundary and the events of one left-to-right reading, or the vector untouched and the events of the reading in order |
| Heartbeat.PingStep | zkdm/pong/ping.c:295-342 | every iteration keeps one target per address, check times less than 3 intervals apart with three consecutive ones spanning the interval in seconds of time(0), and online targets heard from lately |
| Heartbeat.FailureDetector | zkdm/pong/ping.c:119-342 | in every run under any loss, an online target was heard from within _max_interval + 3 _interval |
| Heartbeat.EntryDelivered | zkdm/pong/ping.c:136-201 | for any target: a pong from its endpoint puts it online and stamps it, an announcement from its address lists or renews it, offline and with the text behind the first line, and no other datagram touches it |
| Heartbeat.PongGap | zkdm/pong/pong.c:212-246 | while a target is online, its pongs are at most 2 + m pong intervals apart, with m datagrams from elsewhere and one ping restarting the select in between |
| Heartbeat.AnswerGap | zkdm/pong/pong.c:212-246 | if pong answers within half a check interval, any valid remote is answered within 3 + 3m pong intervals |
| Heartbeat.PingGap | zkdm/pong/ping.c:89-116 | pings reach a valid remote's pong less than the online gap plus three check intervals apart, within its patience |
| Heartbeat.NotExpired | zkdm/pong/ping.c:119-133 | if the strays are bearable, no check takes a responding target offline |
| Heartbeat.SecondCheck | zkdm/pong/ping.c:329-337 | after a ping that puts off a pong, the next check is an interval after the latest pong |
| Heartbeat.PingWakesKeeps | zkdm/pong/ping.c:295-342 | an iteration of ping keeps the composed invariant, for any foreign traffic |
| Heartbeat.PongWakeKeeps | zkdm/pong/pong.c:212-257 | an iteration of pong whose select timed out, with ping's instant reaction, keeps it too |
| Heartbeat.StrayKeeps | zkdm/pong/pong.c:234-256 | a datagram from elsewhere at pong keeps it, as long as there are at most m of them between two pongs |
| Heartbeat.NextKeeps | zkdm/pong/pong.c:212-257 | every step of the composed system keeps the invariant and a valid remote valid, and, if the strays are bearable, an online target online |
| Heartbeat.HeartbeatHolds | zkdm/pong/ping.c:89-152 | in every run, started at any phase of both timers, with compatible intervals and at most m datagrams from elsewhere at pong between two pongs: a valid remote is never dropped; the bounds on pongs and pings; once online, never timed out, if m is bearable; and if pong answers within half a check interval besides, a listed target is online within 3 check and 3 + 3m pong intervals |
| HeartbeatLimits.NeverTimesOutIff | zkdm/pong/pong.c:212-246 | for all compatible intervals, m datagrams from elsewhere between two pongs never make an online target time out if and only if (2 + m) pong intervals are no longer than the maximum; or (1 + m) are, and (2 + m) are shorter than a check interval; or no target comes online at all |
| HeartbeatLimits.StraysStarve | zkdm/pong/pong.c:234-246 | for all other intervals, a run in which strays alone keep pong silent for too long |
| HeartbeatLimits.PingStarves | zkdm/pong/ping.c:89-116 | or strays and one ping to online targets do |
| HeartbeatLimits.DefaultsBearThree | zkdm/pong/ping.c:27-32 | with the shipped defaults no online target ever times out if and only if at most three datagrams from elsewhere reach pong between two pongs |
| HeartbeatLimits.OtherPongIntervals | zkdm/pong/pong.c:95-96 | with the shipped ping and no strays, no online target times out if and only if the pong interval is at most 7 seconds, or so long that none comes online |
| HeartbeatLimits.FourStraysStarve | zkdm/pong/pong.c:234-246 | with the shipped intervals, a run from the start of ping in which four of them take an answering target offline |
| HeartbeatPrograms.PingProgram.SendPings | zkdm/pong/ping.c:89-116 | exactly the offline targets, and all of them more than a minute after the last time, are pinged in list order |
| HeartbeatPrograms.PingProgram.CheckTimeout | zkdm/pong/ping.c:119-133 | exactly the targets silent for longer than the maximum go offline |
| HeartbeatPrograms.PingProgram.UpdatePong | zkdm/pong/ping.c:136-152 | the first target with the endpoint is online and heard from now; the others are untouched |
| HeartbeatPrograms.PingProgram.Find | zkdm/pong/ping.c:155-169 | the first target with the address |
| HeartbeatPrograms.PingProgram.UpdateTargetPrivate | zkdm/pong/ping.c:172-201 | a new target in front, or new data for the known one, offline either way |
| HeartbeatPrograms.PingProgram.Iterate | zkdm/pong/ping.c:295-342 | one iteration refines the step of the state machine |
| HeartbeatPrograms.PongProgram.Iterate | zkdm/pong/pong.c:212-257 | one iteration refines the step of the state machine |
| PongHistory.RunIsDue | zkdm/pong/pong.c:212-256 | in every run, told from its datagrams and timeouts alone: a timeout is answered to whoever pinged last, if none since came later than the patience allows; otherwise pong announces itself at the first tick more than the gap after it last did, and is silent in between |
| PongHistory.AnnouncementsApart | zkdm/pong/pong.c:249-256 | two announcements are more than the gap apart, whatever comes between |
| PongHistory.PongsEnd | zkdm/pong/pong.c:221-232 | when the pings end, the pongs end |
| HeartbeatPrograms.Serve | zkdm/pong/pong.c:212-257 | the program, from its start, sends what the history says is due |
| ThreadQueue.DataList.Append | 3rd/commoncpp2-1.8.1/src/buffer.cpp:308-318 | the critical section of post puts the element last, whatever first and last were |
| ThreadQueue.DataList.RemoveFirst | 3rd/commoncpp2-1.8.1/src/buffer.cpp:262-268 | the worker's critical section removes the head and resets last when the queue empties |
| ThreadQueue.NextInv | 3rd/commoncpp2-1.8.1/src/buffer.cpp:245-320 | every step keeps the token coverage, the order of what is posted and run, the order of the hooks, and the claim of the timeout set last on the sleeper |
| ThreadQueue.NeverStranded | 3rd/commoncpp2-1.8.1/src/buffer.cpp:245-274 | in every interleaving, a worker asleep without a unit and with no post in flight sleeps over an empty queue, and its inner wait never blocks for good |
| ThreadQueue.TimerTakesEffect | 3rd/commoncpp2-1.8.1/src/buffer.cpp:289-300 | in every interleaving, with nothing under way, a sleeping worker waits with the timeout set last, and is started if one was set |
| ThreadQueue.HooksInOrder | 3rd/commoncpp2-1.8.1/src/buffer.cpp:243-275 | in every interleaving, onTimer is called once for each wait that brought no unit, and startQueue, runQueue and stopQueue only in that order |
| ThreadQueue.WorkDecreases | 3rd/commoncpp2-1.8.1/src/buffer.cpp:245-274 | between new calls and idle timer expiries only finitely many steps can be taken |
| ThreadQueue.QuiescentIsDone | 3rd/commoncpp2-1.8.1/src/buffer.cpp:245-274 | when no such step is left, everything posted has been run, in order |
| FixedBuffer.BlocksApart | 3rd/commoncpp2-1.8.1/src/buffer.cpp:199-221 | blocks of the ring never overlap |
| FixedBuffer.BlockStep | 3rd/commoncpp2-1.8.1/src/buffer.cpp:201-215 | advancing by one object and wrapping at the end is the step to the next block |
| FixedBuffer.RingIsQueue | 3rd/commoncpp2-1.8.1/src/buffer.cpp:199-215 | taking from and putting into a ring, across wrap-around, takes the first of a queue and appends to it |
| FixedBuffer.Ring.OnWait | 3rd/commoncpp2-1.8.1/src/buffer.cpp:201-207 | copies out the oldest object byte for byte |
| FixedBuffer.Ring.OnPost | 3rd/commoncpp2-1.8.1/src/buffer.cpp:209-215 | writes the next free block and no other |
| FixedBuffer.Ring.Take | 3rd/commoncpp2-1.8.1/src/buffer.cpp:111-126 | takes the first of the first-in first-out contents and steps the ring, or must sleep exactly when there is none |
| FixedBuffer.Ring.Put | 3rd/commoncpp2-1.8.1/src/buffer.cpp:128-144 | appends to the contents across wrap-around and steps the ring, or must sleep exactly when it is full |
| FixedBuffer.Ring.Peek | 3rd/commoncpp2-1.8.1/src/buffer.cpp:146-158 | the first object, unchanged, or nothing |
| BufferMonitor.RunFifo | 3rd/commoncpp2-1.8.1/src/buffer.cpp:111-144 | for any number of threads and any interleaving, the objects from the ring's head on are, in order, those posted and not yet taken, and fit the ring |
| BufferMonitor.StepFifo | 3rd/commoncpp2-1.8.1/src/buffer.cpp:111-144 | each step keeps that, and a timeout changes nothing |
| BufferMonitor.WaitSection | 3rd/commoncpp2-1.8.1/src/buffer.cpp:111-126 | wait on the bytes of the ring takes the monitor's step |
| BufferMonitor.PostSection | 3rd/commoncpp2-1.8.1/src/buffer.cpp:128-144 | post on the bytes of the ring takes the monitor's step |
| BufferSleep.BothKindsSleepIff | 3rd/commoncpp2-1.8.1/src/buffer.cpp:111-144 | for any sets of producers and consumers, some run has one of each asleep at once if and only if there are more of either kind than objects fit |
| BufferSleep.EveryoneSleepsIff | 3rd/commoncpp2-1.8.1/src/buffer.cpp:111-144 | some run puts every thread to sleep at once if and only if there are more than twice as many threads as objects fit |
| BufferSleep.RoomKeepsOneKindAwake | 3rd/commoncpp2-1.8.1/src/buffer.cpp:111-144 | with room for all threads of either kind, in every state of every run one kind sleeps at most, over no more objects, or holes, than threads are awake to use them |
| BufferSleep.StepCounts | 3rd/commoncpp2-1.8.1/src/buffer.cpp:115-141 | every step of the monitor is one on the counts of awake threads |
| BufferSleep.StepFound | 3rd/commoncpp2-1.8.1/src/buffer.cpp:115-141 | every step on the counts is one of the monitor |
| BufferCounts.MixedIff | 3rd/commoncpp2-1.8.1/src/buffer.cpp:111-144 | the first condition on counts, both directions |
| BufferCounts.StopIff | 3rd/commoncpp2-1.8.1/src/buffer.cpp:111-144 | the second condition on counts, both directions |
| BufferSleep.NeverBothAsleep | 3rd/commoncpp2-1.8.1/src/buffer.cpp:111-144 | with one producer, one consumer and room for one object, they are never both asleep, and whoever sleeps does so over an empty, or a full, buffer |
| BufferSleep.TwoConsumersCanStrandProducer | 3rd/commoncpp2-1.8.1/src/buffer.cpp:123-141 | a run of one producer and two consumers whose single signal wakes the wrong thread: everybody sleeps, the producer over an empty buffer |
| Julian.RoundTrip | 3rd/commoncpp2-1.8.1/src/date.cpp:332-387 | every calendar date of year 1 and later survives the conversion to a day number and back |
| Julian.Consecutive | 3rd/commoncpp2-1.8.1/src/date.cpp:332-357 | consecutive dates, month ends, leap days and centuries included, get consecutive day numbers |
| Julian.OrderIsDateOrder | 3rd/commoncpp2-1.8.1/src/date.cpp:302-330 | comparing day numbers compares dates, for order and equality |
| Julian.EveryDayHasADate | 3rd/commoncpp2-1.8.1/src/date.cpp:359-387 | every day number from 1 January of year 1 on is decoded to a calendar date with that number |
| Julian.CastsFitIff | 3rd/commoncpp2-1.8.1/src/date.cpp:359-387 | the casts to int are in range exactly for day numbers up to 2147447758 |
| Julian.AcceptedRoundTripsIffDate | 3rd/commoncpp2-1.8.1/src/date.cpp:336-356 | of the accepted days 1 to 31, exactly those of the calendar come back unchanged |
| Julian.InvalidMark | 3rd/commoncpp2-1.8.1/src/date.cpp:334-348 | of all input from year 1 on, the number marking an invalid date is given exactly to rejected input and to one real date, 3 June 5874898 |
| Julian.Weekdays | 3rd/commoncpp2-1.8.1/src/date.cpp:252-255 | weekdays follow each other along the calendar, anchored at a known Saturday |
| Julian.Date.ToJulian | 3rd/commoncpp2-1.8.1/src/date.cpp:332-357 | stores the day number, or the invalid mark |
| Julian.Date.FromJulian | 3rd/commoncpp2-1.8.1/src/date.cpp:359-387 | the statements on doubles compute the reverse conversion, and a valid date |
| Julian.Date.Increment | 3rd/commoncpp2-1.8.1/src/date.cpp:274-279 | moves to the next date of the calendar |
| Crc.RegisterDivides | 3rd/commoncpp2-1.8.1/src/digest.cpp:169-213 | feeding a message bit by bit into a register performs polynomial long division over GF(2) |
| Crc.ShiftNLinear | 3rd/commoncpp2-1.8.1/src/digest.cpp:184-189 | repeated shift steps are linear for exclusive or |
| Crc.TableStep | 3rd/commoncpp2-1.8.1/src/digest.cpp:195-197 | one lookup of the shifted top byte equals eight bit steps |
| Crc.Residue | 3rd/commoncpp2-1.8.1/src/digest.cpp:195-201 | a message followed by its checksum leaves the same register for all messages |
| CrcDigest.CRC32Digest.InitDigest | 3rd/commoncpp2-1.8.1/src/digest.cpp:169-192 | fills the table with the eight-step remainder of each byte and the register with ones; the reported checksum stays, and is that of the empty message only if it was before |
| CrcDigest.CRC32Digest.Overflow | 3rd/commoncpp2-1.8.1/src/digest.cpp:195-201 | one byte is eight bit steps, and crc32 is the complement of the register |
| CrcDigest.CRC32Digest.PutDigest | 3rd/commoncpp2-1.8.1/src/digest.cpp:209-213 | a buffer is its bits fed in order |
| CrcDigest.Crc32Meaning | 3rd/commoncpp2-1.8.1/src/digest.cpp:169-201 | for every message the checksum is the complemented remainder of long division by 0x04C11DB7, and the residue is constant |
| CrcDigest.MessageNumber | 3rd/commoncpp2-1.8.1/src/digest.cpp:125-201 | the dividend is the message as a number in base 256, the divisors are 0x04C11DB7 and 0x1021 |
| CrcDigest.Crc32OfPieces | 3rd/commoncpp2-1.8.1/src/digest.cpp:209-213 | splitting a message over any number of calls makes no difference |
| CrcDigest.EightSteps16 | 3rd/commoncpp2-1.8.1/src/digest.cpp:125-133 | eight steps with 0x1021 in closed form, for all 256 bytes at once |
| CrcDigest.CRC16Digest.Overflow | 3rd/commoncpp2-1.8.1/src/digest.cpp:125-133 | the byte swap and shifted additions equal eight bit steps with 0x1021 |
| CrcDigest.Crc16Of | 3rd/commoncpp2-1.8.1/src/digest.cpp:141-145 | a fresh digest's register is the remainder of the message |
| Words.AddWraps | 3rd/commoncpp2-1.8.1/src/md5.cpp:103-107 | the ripple adder is addition modulo 2^width |
| Md5Spec.PadLength | 3rd/commoncpp2-1.8.1/src/md5.cpp:285-286 | 1 to 64 bytes of padding, up to 56 modulo 64 (section 3.1 of RFC 1321) |
| Md5Laws.MixBits | 3rd/commoncpp2-1.8.1/src/md5.cpp:82-100 | bit by bit, the four functions are: if x then y else z; if z then x else y; the parity; y exclusive-or (x or not z) |
| Md5Laws.InitialBytes | 3rd/commoncpp2-1.8.1/src/md5.cpp:137-140 | the initial state, put out, is the sixteen bytes of section 3.3 of RFC 1321 |
| Md5Laws.WordBytesValue | 3rd/commoncpp2-1.8.1/src/md5.cpp:292-297 | a word is put out low-order byte first |
| Md5Laws.DecodeValue | 3rd/commoncpp2-1.8.1/src/md5.cpp:179-183 | a block is taken in as words, low-order byte first |
| Md5Laws.RotateValue | 3rd/commoncpp2-1.8.1/src/md5.cpp:73-80 | the rotation moves the top bits to the bottom |
| Md5Laws.CompressAdds | 3rd/commoncpp2-1.8.1/src/md5.cpp:253-256 | what a block makes of the registers is added to what they held, register by register |
| Md5Laws.PaddedShape | 3rd/commoncpp2-1.8.1/src/md5.cpp:274-290 | the message, a one bit, zeros up to 56 modulo 64, and the number of bits in 8 bytes |
| Md5Machine.MixWord | 3rd/commoncpp2-1.8.1/src/md5.cpp:82-100 | the four functions on machine words are those on bit lists |
| Md5Machine.AddWords | 3rd/commoncpp2-1.8.1/src/md5.cpp:103-107 | so is the machine's addition, carries included |
| Md5Machine.TurnWord | 3rd/commoncpp2-1.8.1/src/md5.cpp:73-80 | so is rotation by shifting both ways, for every amount |
| Md5Machine.StepsWords | 3rd/commoncpp2-1.8.1/src/md5.cpp:103-251 | so is any number of steps, from any step on |
| Md5Machine.MachineDigest | 3rd/commoncpp2-1.8.1/src/md5.cpp:134-299 | the digest of every message is what the operators of 32-bit machine words compute |
| Md5Empty.EmptyDigest | 3rd/commoncpp2-1.8.1/src/md5.cpp:134-299 | the digest of the empty message is d41d8cd98f00b204e9800998ecf8427e, the first entry of the test suite in section A.5 of RFC 1321 |
| Md5Rounds.LowRotate | 3rd/commoncpp2-1.8.1/src/md5.cpp:72-80 | the masked rotation of a 64-bit variable rotates its low 32 bits, whatever the high ones hold |
| Md5Rounds.LowUpdate | 3rd/commoncpp2-1.8.1/src/md5.cpp:103-125 | one of FF, GG, HH, II acts on the low halves as the 32-bit step of section 3.4 of RFC 1321 |
| Md5Rounds.Round1 | 3rd/commoncpp2-1.8.1/src/md5.cpp:185-200 | the sixteen statements of round 1 perform steps 0 to 15 of the loop form, tables and register rotation included |
| Md5Rounds.Round2 | 3rd/commoncpp2-1.8.1/src/md5.cpp:202-217 | steps 16 to 31 |
| Md5Rounds.Round3 | 3rd/commoncpp2-1.8.1/src/md5.cpp:219-234 | steps 32 to 47 |
| Md5Rounds.Round4 | 3rd/commoncpp2-1.8.1/src/md5.cpp:236-251 | steps 48 to 63 |
| Md5.LowAssemble | 3rd/commoncpp2-1.8.1/src/md5.cpp:179-183 | four bytes are assembled low byte first, with the sign of the last one confined to the high half |
| Md5.RoundsCompress | 3rd/commoncpp2-1.8.1/src/md5.cpp:253-257 | after the rounds and four additions the low halves are the compressed state |
| Md5.MD5Digest.Update | 3rd/commoncpp2-1.8.1/src/md5.cpp:159-258 | compresses the zero-filled buffer with the 32-bit algorithm and counts 512 bits, with carry |
| Md5.MD5Digest.PutDigest | 3rd/commoncpp2-1.8.1/src/md5.cpp:309-320 | any piece extends the input; exactly its 64-byte blocks have been compressed and fewer than 64 bytes wait |
| Md5.MD5Digest.Overflow | 3rd/commoncpp2-1.8.1/src/md5.cpp:146-157 | the stream buffer's overflow stores a character or only makes room |
| Md5.MD5Digest.Sputc | 3rd/commoncpp2-1.8.1/src/md5.cpp:134-157 | a character put into the stream buffer extends the input by it, in the room left or through overflow |
| Md5.MD5Digest.Commit | 3rd/commoncpp2-1.8.1/src/md5.cpp:260-299 | pads, appends the counters, ends with an empty partial block, outputs the state, and starts afresh |
| Md5.LengthFieldExact | 3rd/commoncpp2-1.8.1/src/md5.cpp:273-283 | of messages under 2^61 bytes, the stored length is that of section 3.2 of RFC 1321 if and only if there are fewer than 2^29 |
| Md5.CommitDigests | 3rd/commoncpp2-1.8.1/src/md5.cpp:260-299 | for such messages commit's blocks give the digest of the standard |
| Md5.MD5Digest.GetDigest | 3rd/commoncpp2-1.8.1/src/md5.cpp:301-307 | the MD5 digest of everything put since initialisation |
| Md5.DigestTwice | 3rd/commoncpp2-1.8.1/src/md5.cpp:301-320 | any way of feeding a message in, by putDigest in pieces or character by character, gives its digest; a second getDigest gives that of the empty message |
| NameHash.CaseBlind | 3rd/commoncpp2-1.8.1/src/map.cpp:102-110 | names equal without case fall into the same bucket, for every table size |
| NameHash.GetIndex | 3rd/commoncpp2-1.8.1/src/keydata.cpp:151-159 | the loop computes the bucket |
| NameHash.FoldedAlike | 3rd/commoncpp2-1.8.1/src/keydata.cpp:132-132 | names compare equal if and only if they are as long and differ in the case of letters only |
| NameHash.KeyBits | 3rd/commoncpp2-1.8.1/src/map.cpp:104-107 | the key bit by bit: each bit is the parity of the character bits shifted to it |
| NameHash.OneLetter | 3rd/commoncpp2-1.8.1/src/map.cpp:102-110 | a single letter falls into the bucket of its place in the alphabet |
| MapTables.AddedLinks | 3rd/commoncpp2-1.8.1/src/map.cpp:188-194 | links and heads after an object is put in front of its bucket, for every bucket and position |
| MapTables.WithoutLinks | 3rd/commoncpp2-1.8.1/src/map.cpp:227-238 | links and heads after an object is taken out |
| MapTables.MapObject.Detach | 3rd/commoncpp2-1.8.1/src/map.cpp:216-242 | leaves the table with every other object, in order, chains, count and free list intact |
| MapTables.MapTable.AddObject | 3rd/commoncpp2-1.8.1/src/map.cpp:181-195 | moves an object from whatever table held it; both tables keep null-terminated chains of objects that hash to their bucket, a right count and a disjoint free list, if and only if the object was not on the free list |
| MapTables.MapTable.Tangled | 3rd/commoncpp2-1.8.1/src/map.cpp:181-195 | links from the free list to a held object, or back to itself, fit no valid table |
| MapTables.MapTable.RemoveObject | 3rd/commoncpp2-1.8.1/src/map.cpp:203-208 | removes only an object of this table |
| MapTables.MapTable.AddFree | 3rd/commoncpp2-1.8.1/src/map.cpp:172-179 | detaches, then stacks on the free list; the table stays valid if and only if the object was not on it already |
| MapTables.MapTable.GetFree | 3rd/commoncpp2-1.8.1/src/map.cpp:162-170 | the object freed last, which then belongs to nothing |
| MapTables.MapTable.GetObject | 3rd/commoncpp2-1.8.1/src/map.cpp:112-127 | the first object of the name without case in the whole table, or NULL exactly when there is none |
| MapTables.NewestFound | 3rd/commoncpp2-1.8.1/src/map.cpp:112-127 | of objects with one name the one added last is found, and adding another name changes nothing |
| MapTables.MapTable.GetFirst | 3rd/commoncpp2-1.8.1/src/map.cpp:129-142 | the first object in table order |
| MapTables.MapTable.GetLast | 3rd/commoncpp2-1.8.1/src/map.cpp:144-160 | the last object in table order |
| MapTables.MapIndex.Increment | 3rd/commoncpp2-1.8.1/src/map.cpp:55-77 | from each object to the next in table order, over empty buckets, and from the last to NULL |
| MapTables.Walk | 3rd/commoncpp2-1.8.1/src/map.cpp:55-142 | getFirst and ++ visit every object of the table exactly once and stop |
| Symbols.Keydata.Lookup | 3rd/commoncpp2-1.8.1/src/keydata.cpp:127-135 | the walk along one chain finds the symbol of the name in the whole table |
| Symbols.Keydata.GetSymbol | 3rd/commoncpp2-1.8.1/src/keydata.cpp:125-149 | agrees with a map keyed by names without case; creating adds an empty entry |
| Symbols.Keydata.SetValue | 3rd/commoncpp2-1.8.1/src/keydata.cpp:292-308 | appends a value under the name and under no other |
| Symbols.Keydata.ClrValue | 3rd/commoncpp2-1.8.1/src/keydata.cpp:338-347 | empties an existing entry and creates none |
| Symbols.Keydata.GetFirst | 3rd/commoncpp2-1.8.1/src/keydata.cpp:170-186 | the oldest value |
| Symbols.Keydata.GetLast | 3rd/commoncpp2-1.8.1/src/keydata.cpp:244-254 | the newest value |
| Symbols.Keydata.GetCountOf | 3rd/commoncpp2-1.8.1/src/keydata.cpp:161-168 | the number of values |
| Symbols.Keydata.GetList | 3rd/commoncpp2-1.8.1/src/keydata.cpp:310-336 | all values, oldest first, then NULL, from the cache or made now; never stale |
| Symbols.Keydata.MakeList | 3rd/commoncpp2-1.8.1/src/keydata.cpp:321-334 | filling from the end yields the newest values, padded with empty ones if there were too few |
| Symbols.Keydata.GetCount | 3rd/commoncpp2-1.8.1/src/keydata.cpp:256-270 | the number of different names without case |
| Symbols.Keydata.GetNames | 3rd/commoncpp2-1.8.1/src/keydata.cpp:272-290 | every symbol once in table order, cut off at the maximum, then NULL |
| Symbols.Keydata.Load | 3rd/commoncpp2-1.8.1/src/keydata.cpp:349-359 | defaults reach only names without values, the first default of a name counting |
| Symbols.DefaultsReach | 3rd/commoncpp2-1.8.1/src/keydata.cpp:349-359 | after loading defaults every name without values has the first one given for it, and every other is as before |
| Symbols.RunLeaves | 3rd/commoncpp2-1.8.1/src/keydata.cpp:292-347 | after any run the map holds the values set since the name was last cleared |
| Symbols.RunNames | 3rd/commoncpp2-1.8.1/src/keydata.cpp:125-149 | the names in the table are those ever set, cleared ones included |
| Symbols.Replay | 3rd/commoncpp2-1.8.1/src/keydata.cpp:170-347 | after any run of sets, clears and listings, first, last and list are those of the values set since the last clear |
| DomShape.Climb | libzkonvif/gsoap/dom.cpp:615-617 | a node without children and siblings ends where its parent does |
| DomShape.GraftSibling | libzkonvif/gsoap/dom.cpp:764-769 | putting a tree in as last child gives a new sibling to the old last child and to no other node |
| DomShape.GraftKid | libzkonvif/gsoap/dom.cpp:770-770 | and a first child only to a childless parent |
| DomShape.GraftUp | libzkonvif/gsoap/dom.cpp:763-763 | and no old node a new parent |
| Dom.NextElement | libzkonvif/gsoap/dom.cpp:608-621 | from any element of any tree to the next one in preorder, from the last one to NULL |
| Dom.Element.Add | libzkonvif/gsoap/dom.cpp:762-772 | with the added element and all below it spliced in after the last descendant, the whole is again properly linked, if and only if the element had no next sibling where it was before |
| Dom.ParentInside | libzkonvif/gsoap/dom.cpp:762-772 | a tree that holds an element holds its parent, so one from which an element was added elsewhere is a tree no longer |
| DomFind.ElementIterator.Increment | libzkonvif/gsoap/dom.cpp:997-1020 | to the first later element in preorder at which the operator's tests stop |
| DomFind.Walk | libzkonvif/gsoap/dom.cpp:801-804 | from begin, ++ shows all elements of a tree once in preorder and ends |
| DomFind.Find | libzkonvif/gsoap/dom.cpp:815-824 | stops at the element itself if it is wanted, else at the first later stop |
| DomFind.FindAll | libzkonvif/gsoap/dom.cpp:815-1020 | a whole search shows the first element if wanted, then all later stops |
| DomFind.SearchIsExact | libzkonvif/gsoap/dom.cpp:815-1020 | a search shows exactly the wanted elements in preorder if and only if, past the first, every element has a name when one is sought and fits the namespace when only that is |
| DomFind.StopsMeans | libzkonvif/gsoap/dom.cpp:997-1020 | what the increment operator stops at, in terms of names, namespaces and kinds |
| DomFind.WantedMeans | libzkonvif/gsoap/dom.cpp:815-824 | what a search is for |
| Cidr.Bitmask | 3rd/commoncpp2-1.8.1/src/cidr.cpp:53-57 | in place, the bitwise and |
| Cidr.Bitimask | 3rd/commoncpp2-1.8.1/src/cidr.cpp:59-63 | in place, the bitwise or with the complement |
| Cidr.Bitset | 3rd/commoncpp2-1.8.1/src/cidr.cpp:65-78 | sets exactly the first blen bits, for byte arrays of any length |
| Cidr.Bitcount | 3rd/commoncpp2-1.8.1/src/cidr.cpp:80-96 | the number of leading ones |
| Cidr.PrefixIsRange | 3rd/commoncpp2-1.8.1/src/cidr.cpp:115-148 | the addresses that start with a prefix are those between the prefix with zeros and the prefix with ones, as big-endian numbers |
| Cidr.NetworkCidr.constructor | 3rd/commoncpp2-1.8.1/src/cidr.cpp:189-219 | mask of n ones, network masked with it |
| Cidr.NetworkCidr.IsMember | 3rd/commoncpp2-1.8.1/src/cidr.cpp:115-124 | an address is a member if and only if its first bits are the network's, if and only if network <= address <= broadcast |
| Cidr.NetworkCidr.GetBroadcast | 3rd/commoncpp2-1.8.1/src/cidr.cpp:142-148 | the network's bits followed by ones |
| Cidr.NetworkCidr.MaskLength | 3rd/commoncpp2-1.8.1/src/cidr.cpp:80-96 | bitcount of a mask made by bitset is its length |

## Left out

- Engine: compression (zlib is foreign), mode checks and their exceptions, `read(BaseObject&)` on
  NULL or on an object already known (it runs user-defined assignment), `sync` and `more`.
- getopt: `-W` as a prefix of long options, `optopt`, stores through `flag`, error messages and the
  blocks for the GNU C library; a long option whose value is -1, or an option letter of
  code 255 that a signed `char` returns as -1, ends the caller's loop like the end of the vector;
  whole runs are stated for tables without the one, and letters are non-negative.
- ping and pong: sockets, logging, failing `select`, datagrams shorter than a keyword (`pong`
  compares stale bytes of its buffer then), argument parsing.
- ThreadQueue: two threads that both find the worker not started outside the lock; stopping and
  cancelling; element contents.
- Buffer: the Windows variant; fairness among threads, timeouts as durations.
- Date: parsing, four-digit formatting, years before 1, dates of the C library, `Datetime`
  addition; rounding of doubles does not arise at the sizes in use and is not modelled.
- Digests: reading the result out as text; the additive `ChecksumDigest`; copying digests; MD5
  counters past 2^64 overflows.
- MapTable: locking, use after `cleanup`, an object on the free list of another table.
- Keydata: files, paths, numeric and boolean readings of a value, the memory pager; `setValue` with
  a null pointer, which it tests only after using it.
- DOM: attributes, serialising, namespace prefixes, `find` by name on an element without one, which
  the tag comparison would dereference.
- Dom.Element.Add: an element of the very tree it is added to, which its old links still lead to.
- Cidr: reading addresses and masks from text; masks longer than the address, for which `bitset`
  writes past the end.
- The gSOAP service code, WS-Discovery handlers, network interface listing, serial ports, files,
  threads, the registration client and the demonstration programs: calls into the operating system
  or generated code.
- Engine.InputEngine.ReadPointer: a pointer that is not NULL must point to an object in its initial
  state that has not been read, because what a read method leaves of older contents is up to the
  class.
- Engine.InputEngine.ReadInto: likewise.
- Getopt.Scanner.GetoptInternal: option letters without `W;`, which would make `-W` a prefix of long
  options.
- Getopt.Scanner.ScanAll: likewise, and tables without an option whose value is -1.
- Cidr.NetworkCidr.constructor: starts from an address and a mask length, not from their text.
- Heartbeat.HeartbeatHolds: a pong that is restarted while its target still counts as online, before
  its first announcement arrives, may see that target time out once.

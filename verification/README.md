# lazy-utils: a verified model of its daemons

This project models the parts of lazy-utils in which state, protocols and parsing meet, and proves
what they keep. `dafny verify dfyconfig.toml` checks all of it.

**TFTP transfers** (`tftpd.c`). `Tftp` holds datagrams and 512-byte chunking. `ReadTransfer` and
`WriteTransfer` are step relations of a server, a client that follows sections 2, 4 and 6 of RFC 1350 and
may give up with an error at any time, and a network that loses, reorders and (if configured) duplicates
datagrams and carries datagrams of strangers. `SharedDirectory` lets any number of forked write sessions interleave on one directory of
inodes, and `SharedReads` adds readers of a file to which they may be appending. `Runs` is what the two
step relations share: plays of a system, and the acts of one part in them. `Tftpd` has the two handlers as
imperative methods on a socket and a file system. Each of their calls is shown to be a run of the server of
the step relations: the same acts, sending just those datagrams and hearing just those receptions, in that
order, with the same file on the disk. The server's side of every run of a whole system is such a run. The
converse holds exactly for the runs in which what is heard from the client's port may come from the client:
an error, or else its next answer without copies and any answer it can have given with copies (`ReadTransfer.PlayedIff`,
`WriteTransfer.PlayedIff`). `Request` takes a request apart in the reused buffer of `main()`.

**Kernel modules** (`find.c`, `module.c`, `cache.c`, `modprobed.c`). `Find` is the directory walk,
`KernelModule` decodes images and names, `Cache` builds the index and looks names up in it.
`IndexMemory` accounts for every block the index allocates, whatever the allocator answers, and
`IndexBuild` shows that the two views of building agree.
`DependencyGraph`, `Loader`, `LoaderDepth` and `LoaderTermination` treat the mutually recursive loading:
order, closure and termination. `LoadersInterleaved` lets any number of loaders, each with its own call stack, share one
kernel; every run of the recursive methods of `Loader` is shown to be a run of one such loader.

**Scanners in place** (`devd.c`, `mount.c`). `Text` has the C string functions on arrays, with
`strtok_r()` cutting tokens out in place. `FieldScan` and `Uevent` show that the uevent scanner, which
moves on by less than a field, refines a reading field by field. `MountOptions` is the option parser.

## Findings

- Read transfers are exact over a duplicating network (or with a client that repeats acknowledgments)
  up to 65536 blocks, since ids start at 1 and wrap through 0. `ReadTransfer.StaleAckAccepted` gives the
  failing run for every longer file; `ReadTransfer.ReadExactIff` is the exact condition.
- Write transfers never check the block id. They are exact if and only if the network does not
  duplicate and the client sends each block once, or the file is one block
  (`WriteTransfer.WriteExactIff`); otherwise a run ends in success with the first block stored twice.
- A request whose name or mode is not terminated inside its datagram is decoded with bytes that an
  earlier request left in the buffer; `Request.StaleBytesMatterIff` says exactly when that can be seen.
- The uevent scanner can take a value out of the middle of a field. It takes the value of a keyword from
  where a plain reading takes it, unless some field hides the keyword in a part that the scanner revisits
  and no later field begins with the keyword (`Uevent.SamePointerIff`). `Uevent.HandleMisread` calls the
  handler on a message of an added device for which it does nothing.
- A file that is read while it is uploaded can be delivered in part, and the reader takes that for the whole
  file (`SharedReads.ReadTooEarly`). What is delivered is the file as it was when its last block was read,
  so it is the whole file if and only if nothing was written to it afterwards (`SharedReads.DeliveredIff`).
- The loader has no set of visited modules. A walk through a list of dependencies ends early at a module
  that leads to one without a list. With the lists cut there, the loader ends if and only if it can reach
  no dependency cycle (`LoaderTermination.EndsIff`); if every module has a list nothing is cut
  (`LoaderDepth.HealthyFinishesIff`).
- A comment in the source (modprobed.c:47-49) says that the failure of a dependency is ignored. The code, and
  the model, stop at the first one and do not load the module (`Loader.LoadDependencies`, `Loader.Serve`).
- Building the index leaks memory if and only if an alias array that already held a string could not be
  enlarged, and then exactly the strings it held; nothing is freed twice
  (`IndexMemory.Index.Generate`, and `IndexMemory.LeakingLog` for a file of two aliases).

## Model

| member | source | states |
|---|---|---|
| ReadTransfer.ReadExactIff | tftpd.c:425-486 | main result for reads: in every run of server, client and network the client holds a block prefix of the file, lags by at most one block, and holds the whole file once the server returns true, if and only if the file has at most 65536 blocks or nothing duplicates or repeats |
| ReadTransfer.AtMostOneInFlight | tftpd.c:425-483 | without duplication at most one block or acknowledgment is in flight in any reachable state, for files of any length; an error is in flight only after the server has left |
| ReadTransfer.InvStep | tftpd.c:425-483 | every step of every party keeps agreement, no invented datagrams, and one datagram in flight |
| ReadTransfer.StaleAckAccepted | tftpd.c:434-465 | beyond 65536 blocks a stray copy of an acknowledgment is taken for a block the client has not seen |
| ReadTransfer.TransferCanComplete | tftpd.c:425-486 | for every file some run delivers all of it and the server returns true |
| ReadTransfer.ServerSideRuns | tftpd.c:425-486 | in every run of the whole system the server's acts are a run of the server alone, up to the same server state |
| ReadTransfer.ServerRunDelivers | tftpd.c:425-486 | what the end of a server run means for the client, in any run of a covered system around it: the client lags by at most one block, and holds the file if the server returned true |
| ReadTransfer.PlayedIff | tftpd.c:425-486 | acts are the server's side of some run of the whole system if and only if they are a run of the server in which every datagram from the client's port is an error, or an acknowledgment of the block just sent, or of any block sent so far where datagrams or acknowledgments may be repeated |
| WriteTransfer.WriteExactIff | tftpd.c:287-364 | main result for writes: in every run the server's file is the prefix of the acknowledged blocks, success means it equals the source, failure after the opening acknowledgment leaves no file, a lost opening acknowledgment leaves an empty one, if and only if the file is one block or nothing duplicates or repeats |
| WriteTransfer.AckInFlightFollowsWrite | tftpd.c:331-352 | an acknowledgment in flight is for the last block written; a block in flight is the next one |
| WriteTransfer.AckFollowsWrite | tftpd.c:331-348 | the acknowledgment a client accepts follows the write of its latest block |
| WriteTransfer.TakenIsNext | tftpd.c:311-338 | the block the server takes is the one it lacks, though it does not look at the id |
| WriteTransfer.CorruptedFileAccepted | tftpd.c:331-352 | with one copy of the first block the server returns true with that block written twice |
| WriteTransfer.ServerSideRuns | tftpd.c:271-364 | in every run of the whole system the server's acts are a run of the server alone, up to the same server state |
| WriteTransfer.ServerRunStores | tftpd.c:287-364 | what the end of a server run means for the file, in any run of a covered system around it |
| WriteTransfer.PlayedIff | tftpd.c:271-364 | acts are the server's side of some run of the whole system if and only if they are a run of the server in which every datagram from the client's port is an error or a block that may come: the next one without copies, and otherwise any block for which the server has sent the acknowledgments that make a client send it (as many of each id as that takes, if the network makes no copies) |
| WriteTransfer.TransferCanComplete | tftpd.c:271-364 | for every source some run stores all of it, and server and client both succeed |
| SharedDirectory.OneLiveOwner | tftpd.c:271-285 | in every interleaving of any number of sessions a path has at most one live owner, and no file that was there before changes or goes |
| SharedDirectory.FilesLeftBehind | tftpd.c:354-367 | when all sessions have ended, each new file is the payload of exactly one successful session, or empty from one whose opening acknowledgment failed |
| SharedDirectory.MoveKeeps | tftpd.c:271-364 | a move of one session keeps what every session relies on |
| SharedDirectory.ForkKeeps | tftpd.c:785-802 | so does one more forked session |
| SharedReads.SnapshotDelivered | tftpd.c:425-486 | a reader that finishes while any number of write sessions move has delivered the file as it was when the last block was read |
| SharedReads.DeliveredIff | tftpd.c:425-486 | at any later moment that is the file, if and only if nothing was written to it in between |
| SharedReads.FinalFileDelivered | tftpd.c:425-486 | if no session is writing to the file when the last block is read, it is the file at every later moment |
| SharedReads.ReadTooEarly | tftpd.c:785-802 | a reader during the upload of one short block delivers nothing and has finished |
| SharedReads.OnlyGrows | tftpd.c:331-338 | along a run the content of a file is only extended |
| Tftpd.HandleRrq | tftpd.c:408-494 | the read handler returns true exactly when every block can be read and sent and the i-th reception is a datagram from the client's port with the opcode of an acknowledgment and id i mod 65536; otherwise all receptions but the last are, and the last is not or the next block is not read or sent; what it sends is the first n canonical data packets and one error, if the last reception is that acknowledgment from another port; an absent or unreadable file is answered with its error code alone; all it sent and all it heard, in order, are those of a run of the step relation's server that ends as the handler does |
| Tftpd.SendFile | tftpd.c:425-486 | the loop over the blocks, with the wrapping 16-bit id: it succeeds exactly if all rounds work, and otherwise says which one did not and what was sent; all as that run of the server |
| Tftpd.SendRound | tftpd.c:427-483 | one iteration extends the run by the block sent and the reception judged, or by giving up |
| Tftpd.SendBlock | tftpd.c:427-480 | one iteration: short read at the end of the file, and a reception is accepted exactly if it is an acknowledgment with this id from this port |
| Tftpd.CheckAck | tftpd.c:446-480 | the checks in the order opcode, id, port: only who sends the right opcode and id from another port is told so |
| Tftpd.DataPacketsCarryFile | tftpd.c:427-442 | the payloads of the canonical packets join to a prefix of the file, and all of them to the file |
| Tftpd.RoundIsTwoActs | tftpd.c:433-483 | an iteration is two acts of the step relation's server: it sends just that block and perhaps an error, and hears just that reception |
| Tftpd.HandleWrq | tftpd.c:271-367 | the write handler succeeds exactly when the path is new and permitted, the opening acknowledgment goes out and all blocks up to the first short one go well; each block taken is a datagram with the opcode of data from the client's port, with 512 bytes exactly if it is not the last; the file is their concatenation, and each has its acknowledgment with its id. A reception with another opcode or from another port, a short write or a lost acknowledgment ends it with false and no name left, and what was sent is the acknowledgments of the blocks taken and, only to a sender of data from another port or for lack of space, one error. A refused path changes nothing on the disk and is answered with its error code; a lost opening acknowledgment leaves an empty file; old files are untouched; all it sent and heard, and the file it leaves, are those of a run of the step relation's server |
| Tftpd.ReceiveOrDiscard | tftpd.c:298-364 | the loop and, without success, the deletion: the same statement from the opened file on |
| Tftpd.ReceiveFile | tftpd.c:298-355 | the loop over the blocks: exactly the blocks up to the first short one are consumed, each written and acknowledged, or the loop stops at an act that takes none |
| Tftpd.ReceiveRound | tftpd.c:299-352 | one iteration as a part of the whole: a block more is taken, or the loop stops for good |
| Tftpd.TakeBlock | tftpd.c:299-349 | one iteration: a block is written exactly if it is data from this port, and taken exactly if it is also written in full and its acknowledgment goes out; what is said otherwise |
| Tftpd.Greet | tftpd.c:271-296 | exclusive creation and the opening acknowledgment |
| Tftpd.ProgressTakes | tftpd.c:331-352 | a block taken extends the file, the session and the server's run together |
| Tftpd.ProgressStops | tftpd.c:307-364 | a block not taken leaves a session about to delete its file and nothing else changed |
| Tftp.BlocksJoin | tftpd.c:427-442 | blocks 1 to n join to the first 512 n bytes |
| Request.DecodeInvertsEncode | tftpd.c:740-783 | decoding inverts the format of section 5 of RFC 1350 for every name of 1 to 255 bytes and both modes, whatever stale bytes the buffer held, and the packet fits the buffer |
| Request.StaleBytesMatterIff | tftpd.c:740-783 | what is decoded depends on the datagram alone exactly if its fields end inside it (or fill the buffer) |
| Request.Receive | tftpd.c:740-783 | one round of the loop on the reused buffer computes that decoding, and leaves in the buffer the datagram over what was there, with the opcode in host order |
| Request.DecodeMeans | tftpd.c:757-783 | what is decoded, byte by byte: nothing from less than 10 bytes, with an opcode other than 1 and 2, or without a NUL byte after at most 255 bytes of name; otherwise the bytes up to that one and those up to the next |
| Request.Decide | tftpd.c:604-622 | only mode octet is served; a served name has no slash and is the requested one up to a leading slash |
| Request.LastSlash | tftpd.c:611-622 | the position of the last slash, if there is one |
| Find.FindAll | find.c:44-110 | the walk is the fold of the callback over the pre-order events of the tree, up to the first failure |
| Find.SuccessVisitsAll | find.c:44-103 | the walk succeeds exactly if nothing stops it and no callback refuses, and then ran the callback on every matching file in order |
| Find.StopIff | find.c:38-110 | a walk is stopped exactly if it leads to a directory that cannot be opened or not be read to its end, or to an entry whose path is too long |
| Find.EntriesInOrder | find.c:44-100 | files are visited in the order in which directories are read |
| Find.VisitedIffMatching | find.c:53-98 | the visited paths are exactly those of matching regular files below directories other than dot and dot-dot |
| Find.VisitedOnce | find.c:44-103 | no file is visited twice |
| KernelModule.ForEachDependency | module.c:123-195 | in an image in which the marker begins nowhere nothing is called and the result is false; otherwise the callback runs on the non-empty fields after the first marker, in order, until one is refused, and the result is true exactly if none is |
| KernelModule.DependenciesMean | module.c:146-187 | there is no list exactly if the marker begins nowhere, which is not an empty list; otherwise the list is what follows the first marker |
| Callbacks.RefusalEnds | module.c:177-187 | the first refusal ends a series of calls: what comes after it is not looked at, and what it left stays |
| KernelModule.ForEachToken | module.c:177-190 | the loop over strtok_r(): the callback runs on the tokens in order, up to the first refusal |
| KernelModule.DependenciesRoundTrip | module.c:146-187 | a printed list of names anywhere in an image is decoded to the same names |
| KernelModule.FindDependencies | module.c:146-163 | the first marker in range |
| KernelModule.ForEachAlias | module.c:197-226 | the callback runs on the string after each marker in range, in order, until one is refused |
| KernelModule.AliasesMean | module.c:208-223 | the aliases are the strings behind all markers of the image, one each, in their order |
| KernelModule.NormaliseInPlace | module.c:50-55 | hyphens become underscores in place, and the name keeps its length |
| KernelModule.ModuleCmp | cache.c:153-190 | two names compare equal exactly if they have the same normal form, that is, are equal character by character up to hyphens and underscores |
| KernelModule.NormalFormIsNormal | module.c:50-55 | a normal form has no hyphen and is its own normal form |
| Cache.Index.Generate | cache.c:95-127 | success exactly if the path fits, the walk is not stopped and every file can be opened and stored; then the index describes the matching files in walking order, otherwise it is empty |
| Cache.AppendingIndexes | cache.c:47-93 | appending file after file indexes the files, or fails exactly when one cannot be opened or stored |
| Cache.Index.Find | modprobed.c:68-79 | the look-up through the index yields, by position among the files: the first file whose normal name is that of the request; without one, the first file with a matching pattern; without one, the first file with the name after the first colon of the request, if that name is not empty; otherwise none |
| Cache.LocateMeans | modprobed.c:68-79 | a direct scan of the files follows the same rules |
| Cache.AfterFirstColon | cache.c:222-229 | what follows the first colon, unless it is empty |
| Cache.NameOfFile | module.c:37-55 | the name of dir/stem.extension is its stem up to hyphens |
| Cache.CanOpenFile | module.c:27-61 | a module can be opened if the file is there, its name has an extension whatever directory it is in, and its image is longer than the marker of a list |
| Cache.Index.FindModule | cache.c:192-204 | the first entry with the same normal form as the request |
| Cache.Index.FindPattern | cache.c:214-220 | the first entry with a matching alias pattern |
| Cache.Index.FindAlias | cache.c:206-232 | by pattern, then by the name after the first colon if it is not empty |
| Cache.NamesAgree | cache.c:192-204 | a look-up by name in the index is a look-up by name in the files |
| Cache.PatternsAgree | cache.c:206-220 | so is a look-up by pattern |
| IndexBuild.GenerateAgrees | cache.c:95-127 | storing file after file succeeds with the memory granted in a run of requests if and only if that run succeeds |
| IndexBuild.AllGrantedIff | cache.c:95-127 | a run of requests succeeds if and only if every file can be opened and all it asks for is granted |
| IndexBuild.SameShape | cache.c:47-93 | after success the entries in memory hold as many strings as the entries of the index have aliases |
| IndexMemory.Index.Generate | cache.c:95-127 | memory is asked for just what the files call for, in order, up to the first refusal; success exactly if every file can be opened and nothing is refused, with a valid index that leaked nothing; on failure only leaked blocks stay; blocks leak if and only if the refused request was to enlarge an alias array that held a string already, and they are exactly its strings |
| IndexMemory.Index.AppendAlias | cache.c:12-45 | the array is enlarged, then the alias copied; the entry owns a distinct array of its length afterwards, or has lost its strings exactly if the array was refused |
| IndexMemory.Index.AppendModule | cache.c:47-93 | what it asks of memory for a file, and what it loses; in any case the index stays valid and keeps the entries before |
| IndexMemory.LostIff | cache.c:26-33 | something is lost exactly if the array that could not be enlarged held a string already |
| IndexMemory.LeakingLog | cache.c:26-33 | a run that leaks: the array is refused for the second alias of a file, and the first alias is lost |
| IndexMemory.CopiedStrings | cache.c:36-41 | the strings of an entry are the blocks that were granted for them |
| IndexMemory.Index.Release | cache.c:129-151 | every owned block is freed, none twice, and only leaked blocks stay |
| IndexMemory.Index.ReleaseEntry | cache.c:140-146 | the strings of an entry and then its array are freed, each once |
| IndexMemory.LosesArray | cache.c:29-33 | freeing the array while dropping its strings keeps the accounts of all other blocks |
| IndexMemory.GainsString | cache.c:26-41 | moving the array and adding a string, or NULL, keeps the representation |
| IndexMemory.GainsEntry | cache.c:65-85 | moving the array of entries keeps the representation |
| Loader.Serve | modprobed.c:64-80 | under the exact condition for ending, a request ends; on success the kernel holds exactly what it held and the closure of the request, and the module that the request leads to is in it; a request that leads to a module in whose image the marker of a list begins nowhere fails and does not load it; one that leads to no file that can be opened succeeds without effect. Each module loaded has a list, and what its names lead to was there or was loaded before it. It fails exactly if the system refuses something or a needed module has no list; a closed kernel stays closed; and the call is a run of one loader of LoadersInterleaved; files are opened as they are when they are loaded, which need not be as they were indexed |
| Loader.InOrderMeans | modprobed.c:47-55 | what loading in order means for the images: the list behind the first marker, and the files its names lead to |
| Loader.UnlistedFails | module.c:160-163 | the module that a request leads to is needed by it, and without a list it makes the request fail |
| Loader.LoadByPath | modprobed.c:32-62 | the same for one file, and success without effect for a file that can no longer be opened |
| Loader.LoadByNameOrAlias | modprobed.c:64-80 | the same for a name, and success without effect for a name that leads to no file that can be opened |
| Loader.LoadDependencies | module.c:177-187 | the first failure ends the loop over the names |
| Loader.ModuleLoad | module.c:106-121 | a module that is there already counts as loaded |
| Loader.ReadDependencies | module.c:123-195 | the names on which the callback runs |
| Loader.WalkedIsSafe | modprobed.c:50-55 | a call that is reached, because all names before it were loaded, is for no module whose call is in progress |
| LoadersInterleaved.DependencyLeads | modprobed.c:50-55 | the call for a dependency, its recursion and its return are steps of one loader |
| Loader.InOrderKeepsClosed | modprobed.c:47-55 | loading in order keeps a closed set closed wherever it stops |
| Loader.InOrderIsDistinct | module.c:111-118 | loads in order are all different and were not there before |
| Loader.WorldOfIsWorld | modprobed.c:68-79 | every name leads to a file of the index or to none |
| LoaderTermination.EndsIff | modprobed.c:32-80 | main result on ending: a loader alone, to which the system grants all it asks, ends if and only if no cycle can be reached in the lists as far as they are walked |
| LoaderTermination.NeverEnds | modprobed.c:32-80 | with such a cycle ahead a loader never ends, whatever other loaders do |
| LoaderTermination.PathLeads | modprobed.c:32-62 | the recursion cut at a depth is a run of the loader's steps, with the same result |
| LoaderDepth.FinishesIff | modprobed.c:32-80 | the recursion ends at some depth if and only if no cycle can be reached in the lists as far as they are walked |
| LoaderDepth.HealthyFinishesIff | modprobed.c:32-80 | if every module has a list, the condition is that no reachable module is on a cycle |
| LoaderDepth.SameRun | module.c:160-163 | cutting each list behind the first name that cannot be loaded changes no run |
| LoaderDepth.SuccessIsHealthy | module.c:160-163 | success means that every module reached has a list |
| LoaderDepth.CycleBehindFailure | module.c:177-187 | a module on a cycle for which loading ends, since a name before the cycle fails |
| LoaderDepth.DepthIsBounded | modprobed.c:32-80 | without a cycle no more modules are open at once than there are |
| LoaderDepth.NeverFinishes | modprobed.c:32-80 | with such a cycle ahead no depth suffices |
| DependencyGraph.ClosureUnfolds | modprobed.c:47-55 | a module's closure is the module and the closures of its names |
| DependencyGraph.SafeBelow | modprobed.c:50-55 | a call for a dependency is never for a module whose call is in progress |
| LoadersInterleaved.SuccessProvidesClosure | modprobed.c:177-188 | whatever other loaders do, a loader that returned true has left the whole closure of its request in the kernel, now and later |
| LoadersInterleaved.DependenciesComeFirst | modprobed.c:47-55 | in every interleaving a module enters the kernel only after its found, openable dependencies |
| LoadersInterleaved.ClosedStaysClosed | modprobed.c:177-188 | a kernel with no dependency missing never has one missing |
| LoadersInterleaved.OnlyAskedIsLoaded | modprobed.c:64-80 | what is loaded is in the closure of some request |
| LoadersInterleaved.StepKeepsInv | modprobed.c:32-80 | one step of one loader keeps what all loaders have achieved |
| LoadersInterleaved.KernelGrows | module.c:106-121 | along a run the kernel only grows |
| Uevent.HandleNewDevice | devd.c:91-169 | for a message whose fields from the first at-sign on are plain: ignored exactly if no field begins with DRIVER or MODALIAS, otherwise without an action or not added by the last ACTION, otherwise modprobe of the last DRIVER if there is one and else of the last MODALIAS; for any message the same of the texts where the scanner's last look at each keyword ended, or nothing without an at-sign; looks are at the scanner's positions |
| Uevent.ScanMessage | devd.c:119-142 | the loop refines the reading field by field, looks at exactly the scanner's positions, and leaves in each pointer what the last look that found its keyword saw |
| Uevent.Iterate | devd.c:120-141 | one iteration: a look, and the move by one more than what follows the delimiter |
| Uevent.LookAt | devd.c:127-138 | a field that begins with a keyword sets one pointer |
| Uevent.Choose | devd.c:144-162 | the driver before the alias, and only for an added device, in terms of the texts the pointers hold |
| Uevent.LastFieldsAreFound | devd.c:113-142 | main result: when no proper suffix of a field begins with a keyword, the scanner finds for each keyword the last field that begins with it |
| Uevent.ScannerReadsPlainly | devd.c:119-142 | the same from the weaker condition that no revisited part begins with a keyword |
| Uevent.SamePointerIff | devd.c:119-142 | for a whole message, by its fields: the scanner takes the value of a keyword from where a plain reading takes it, or both find none, if and only if no field hides the keyword with no later field beginning with it |
| Uevent.PlainPointer | devd.c:119-142 | the plain reading takes the last field that begins with the keyword, in terms of pointers |
| Uevent.VisitIsLookIff | devd.c:119-142 | for one field: visiting it amounts to one look at it if and only if no revisited part begins with a keyword |
| Uevent.LooksAtHidden | devd.c:131-141 | a field that is misread: a look at it finds nothing, but the scanner finds an action in its middle |
| Uevent.MisreadMessage | devd.c:119-162 | a message of an added device that the scanner takes for another kind of event |
| Uevent.HandleMisread | devd.c:91-169 | the handler given that message |
| Uevent.Hop | devd.c:120-141 | the scanner moves by at least one and never past the next field's start |
| FieldScan.RunReadsFields | devd.c:119-142 | scanning position by position is reading field by field |
| FieldScan.PositionsIncrease | devd.c:119-142 | positions strictly increase and stay within the message and its terminator |
| FieldScan.PositionsSplit | devd.c:119-142 | the scanner looks within the first field, and then from the start of the next one on |
| FieldScan.PositionsCoverFields | devd.c:119-142 | no field start is skipped |
| FieldScan.FieldsOfMessage | devd.c:119-142 | splitting a message gives the fields it was made of |
| FieldScan.FieldsFromAreFields | devd.c:119-142 | the fields are those of a plain split on NUL |
| MountOptions.ParseOptions | mount.c:87-128 | flags gain the options' bits, the leftovers are the comma-join of the other tokens in a buffer of the size of the input, which is never overrun |
| MountOptions.ParseInPlace | mount.c:102-121 | the loop over the tokens on the two buffers |
| MountOptions.TakeOption | mount.c:105-119 | one token becomes a flag or a leftover |
| MountOptions.AppendOption | mount.c:113-118 | a leftover is appended within the buffer |
| MountOptions.LookUp | mount.c:106-112 | the table of options |
| MountOptions.FlagsAreTheOptions | mount.c:103-112 | a known flag is set exactly if it was set before or its option is listed |
| MountOptions.OtherBitsStay | mount.c:106-112 | no other bit changes |
| MountOptions.NoTokenIsLost | mount.c:103-121 | recognised and left-over tokens together are all tokens, each as often as listed |
| MountOptions.UnknownKeepOrder | mount.c:113-119 | left-over tokens keep their order |
| MountOptions.UnknownAreTheOthers | mount.c:113-119 | a token is left over exactly if it is listed and not recognised |
| MountOptions.ReparsingChangesNothing | mount.c:87-124 | parsing the leftovers again sets no flag and leaves them as they are |
| Text.StrTok | mount.c:103-120 | one call of strtok_r() cuts out the first token in place and leaves the others |
| Text.TokensAreNonEmptyFields | mount.c:103-120 | the tokens are the non-empty fields between commas |
| Text.TokensOfJoin | mount.c:113-119 | joining tokens with commas and splitting again gives them back |

## Left out

- Tftpd.HandleWrq: assumes that a datagram carries at least its 4-byte header; the handler computes the payload size without checking it. What does not fit the 512-byte buffer is cut off by recvfrom(), so payloads have at most 512 bytes.
- Tftpd.FileSystem.Read: reads of a regular file are assumed to be short only at its end.
- Tftpd.HandleRrq: the file stays as it is while the handler reads it; SharedReads says what a reader delivers when a write session of the same daemon appends to it meanwhile.
- Tftpd.Socket: what each call yields is fixed in advance, and the contracts hold for all such choices; a timeout is a failed reception; a datagram that does not fill the expected acknowledgment is one too.
- A transfer id is the port alone, as in the code; the address of the sender is not compared. Error packets go to the client's address, whoever caused them, and so does the model's server.
- Section 5 of RFC 1350 lets the mode be in upper or lower case; the code, and the model, serve exactly "octet".
- A client that repeats its write request, and the random choice of the server's port.
- Closing of descriptors, which some early exits skip.
- Find.FindAll: methods are not first-class in Dafny, so callbacks are functions on values; what the callback accumulates is passed along as a value.
- Cache.Index.Generate: the callback of the walk is the function AppendModule on values for the same reason; the allocation steps behind it are in IndexMemory.
- Cache.Index: names and paths are assumed to fit their fixed-size fields; images too short for the marker count as files that cannot be opened, where the source has an assertion; basename() is what follows the last slash.
- KernelModule.ForEachDependency: a string in an image ends at a NUL byte or with the image; the callback is a function on values, so Loader first collects the names and then runs the calls in their order, which is the same sequence of calls.
- Matching by fnmatch() is an arbitrary predicate, and the ELF structure of an image plays no part.
- Loader.Kernel: a module's identity is its path, modules are not unloaded, and nothing but loaders adds modules.
- Loader.Serve: the datagram socket of the loader daemon, and its rule that a request of 0 or 2047 bytes is ignored.
- IndexMemory: the temporary copy of each path, and the shutdown of a daemon whose index is empty, where the source has an assertion.
- LoaderDepth and LoaderTermination: state the exact condition for a system that refuses nothing; a refusal only ends the recursion earlier.
- Uevent.HandleNewDevice: a driver or alias without an action is an outcome of its own, since the source compares a null pointer there; the result, which is always true, and the child process are left out.
- MountOptions.AppendOption: the sprintf() from a buffer into itself is modelled as the append it is meant to be.
- Existing devices, file-system probing and the rest of mount.c's main(), and the daemons that only wrap system calls (init, contain, klogd, syslogd, losetup and the like), which would add only easy members.

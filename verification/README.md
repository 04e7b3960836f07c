# kbuild, modelled and proved

A Dafny model of the parts of `kbuild` that carry its hardest logic, with the promises those parts
make proved for all inputs and all runs. `dafny verify dfyconfig.toml` checks the whole project.

The model has seven parts.

- **FAT16 and FAT32 volumes** (`Fat*.dfy`). One model covers both formats; `FatLayout.Format` holds the
  numbers in which they differ. The writer places a tree in preorder, chains clusters and stores
  bytes; the reader shares nothing with it but the byte vocabulary. The main results are the round
  trip from files to bytes to files (`FatTheorems.ReadExact`, `FatTheorems.RoundTrip`), exactly when a volume
  can be written (`FatTheorems.VolumeSucceeds`, `FatConflicts.TreeExact`) and opened (`FatOpens.OpensExact`), the exact meaning of
  `check` on arbitrary bytes (`FatCheck.CheckExact`, `FatCheck.CheckConserves`), and that whatever the
  writer produces checks clean (`FatChecked.WrittenChecksClean`).
- **The TCP peer** (`Tcp*.dfy`). One connection as a state machine over wrapping sequence numbers, with
  the guest free to reorder, repeat, overlap and lose segments. The end loses segments on purpose to
  provoke retransmission; `TcpProgress.ProgressExact` says for which streams that never costs a byte,
  and `TcpProgress.RetransmissionExact` for which no retransmission is lost. Both conditions come from
  one test in the source, which takes the sequence number zero for "nothing seen yet".
- **The build planner** (`Graph.dfy`, `Planner.dfy`, `Reach.dfy`). Depth-first sort with cycle reports, edge
  rules, and what the edge rules say about everything reachable.
- **The DWARF line table** (`Dwarf.dfy`, `DwarfTable.dfy`). The line-number machine against the rows it stands
  for, and the sorted table with its bounded lookup.
- **SHA-256** (`Sha256.dfy`, `Sha256Stream.dfy`). The streaming form against the one-shot hash.
- **menuconfig** (`Menuconfig.dfy`, `MenuSession.dfy`, `Settings.dfy`, `Preset.dfy`). The editor as a key-driven
  machine over a resolver about which nothing is known, and the preset file it saves.
- **Markers, checksums, fragments** (`Markers.dfy`, `InternetChecksum.dfy`, `Fragments.dfy`).

## How it is built

Pure functions say what each operation computes. Where the source changes things step by step there
is a class or a method with loops (`FatBuilder.Writer`, `FatWalker.Walker`, `Tcp.Conn`, `Graph.Sorter`,
`Dwarf.Machine`, `Sha256Stream.Hasher`, `MenuSession.Session`, `Markers.MarkerCounter` and the methods in the table
below), each proved to do what its function says; the theorems are about the functions. Lemmas that
only put other lemmas together begin with a `hide` statement, so that they rest on the contracts they
call and on nothing else.

Choices made throughout:

- Text and paths on volumes are byte sequences (UTF-8). Preset files are character sequences, with
  `trim` removing exactly Unicode's `White_Space`.
- An arithmetic overflow of the layout search is the error `Overflow`. Elsewhere integers are
  unbounded unless a `%` says otherwise: sequence numbers wrap at 2^32, addresses and bit lengths at
  2^64. The counters `new_data`, `count` and the report's counts are not bounded.
- Errors are plain variants; their wording is not modelled.
- The reader of a written volume needs `FatTheorems.Sound`: at least one table, a reserved sector for the
  boot sector, and a label that does not begin with a zero byte. Without the first or the second the
  volume does not open (`FatOpens.OpensExact`); what happens without the third is
  `FatTheorems.UnlabelledReadsNothing`.
- It also needs `FatTheorems.Low`: the clusters the files take have numbers below the marks of the format.
  `FatTheorems.SmallIsLow` gives it for every FAT16 volume and for every FAT32 volume within the cluster
  counts of the Microsoft FAT32 File System Specification.
- A path component that ends in a dot is accepted by the writer and found by no reader;
  `FatTheorems.RoundTrip` says so exactly.

## Model

| member | source | states |
|---|---|---|
| `FatNames.EncodeShortName` | kbuild/src/fat16.rs:76-101 | The checks and copying loops compute the eleven stored bytes, or refuse the component. |
| `FatNames.DisplayOfShortName` | kbuild/src/fat16.rs:487-527 | The reader names a stored component by its capitals, a trailing dot gone. |
| `FatNames.NameMatches` | kbuild/src/fat16.rs:597-616 | A stored name is found by exactly the components stored under it, those ending in a dot excepted; both directions. |
| `FatTree.BuildTree` | kbuild/src/fat16.rs:265-286 | The insertion loop builds the tree of all files or reports the first conflict. |
| `FatTree.InsertGet` | kbuild/src/fat16.rs:265-286 | Inserting a file changes what its own path names, makes the directories above it, and changes nothing else. |
| `FatTree.BuildGet` | kbuild/src/fat16.rs:265-286 | In a built tree names lead to a file's bytes exactly when a file was given under them. |
| `FatTree.BuildGetDir` | kbuild/src/fat32.rs:232-255 | In a built tree names lead to a directory exactly when some file lies below them. |
| `FatTree.InsertCommutes` | kbuild/src/fat16.rs:272-287 | Two insertions in either order give the same tree, or both orders fail: the conflict rules are symmetric. |
| `FatTree.BuildIgnoresOrder` | kbuild/src/fat16.rs:265-286 | Any reordering of the files builds the same tree or none. |
| `FatConflicts.InsertExact` | kbuild/src/fat16.rs:270-286 | A file is inserted exactly when its path is acceptable, names nothing yet and passes through no file. |
| `FatConflicts.TreeExact` | kbuild/src/fat32.rs:232-255 | Files make a tree exactly when every component is acceptable and no file has another's path or lies below it. |
| `FatLayout.SolveLayout` | kbuild/src/fat32.rs:81-110 | The table-size loop computes the layout, every error case included. |
| `FatLayout.SearchFindsLeast` | kbuild/src/fat16.rs:120-151 | A success is the least covering table; `WrongFormat` and `NoTable` mean what they say of every size tried. |
| `FatLayout.LayoutIsLeastAndFits` | kbuild/src/fat16.rs:120-151 | A solved layout has the least covering table and a cluster count of the format, and its regions follow one another inside the volume. |
| `FatBuilder.Writer.Chain` | kbuild/src/fat16.rs:168-188 | Claiming a chain links the next clusters, ends the last, and fails exactly when the volume is full. |
| `FatBuilder.Writer.Place` | kbuild/src/fat32.rs:172-178 | Clusters are assigned to a directory and then to its children in name order. |
| `FatBuilder.Writer.StoreFiles` | kbuild/src/fat16.rs:218-226 | Each file is stored through a chain of its own and named by its entry. |
| `FatBuilder.Writer.PutEntries` | kbuild/src/fat16.rs:238-240 | The entry loop stores the encoded entries one after another. |
| `FatBuilder.Writer.WriteTree` | kbuild/src/fat16.rs:207-248 | A directory's files, entries and subdirectories are written as `FatWriter.WriteDir` says. |
| `FatBuilder.Writer.Seal` | kbuild/src/fat32.rs:271-283 | Boot sector, FSInfo and every table copy are stored as `FatImage.Finish` says. |
| `FatBuilder.MakeVolume` | kbuild/src/fat32.rs:232-284 | The whole of `volume`, step by step, gives the bytes of `FatTheorems.VolumeBytes` or its error. |
| `FatStored.AssignPlaces` | kbuild/src/fat16.rs:197-205 | Directories stand in preorder from the first cluster, each linked. |
| `FatStored.AssignMirrors` | kbuild/src/fat16.rs:197-205 | The placed tree has the files and subdirectories of the tree, in key order. |
| `FatContents.WriteFilesCorrect` | kbuild/src/fat16.rs:218-226 | Written files stand in linked clusters of their own and nothing else changes. |
| `FatWritten.WriteDirCorrect` | kbuild/src/fat16.rs:207-248 | A written directory has its entries, files and subdirectories stored, and only its own clusters changed. |
| `FatVolume.FillHolds` | kbuild/src/fat16.rs:288-299 | A filled disk holds the whole tree, used clusters come first, and the table calls the rest free. |
| `FatRoom.AssignRoom` | kbuild/src/fat32.rs:172-178 | Assigning succeeds exactly when the directories have clusters, and then takes exactly those. |
| `FatRoom.WriteRoom` | kbuild/src/fat16.rs:207-248 | Writing succeeds exactly when sizes fit 32 bits, the files have clusters, and a fixed root has entries. |
| `FatTheorems.VolumeSucceeds` | kbuild/src/fat16.rs:265-308 | `volume` succeeds exactly when the files make a tree, the shape has a layout and the tree fits it. |
| `FatVolume.VolumeIgnoresOrder` | kbuild/src/fat16.rs:265-308 | Reordered items give the same bytes or no volume. |
| `FatTheorems.OrderDoesNotMatter` | kbuild/src/fat32.rs:232-284 | Any permutation of the files gives byte-identical volumes, or none. |
| `FatReader.OpenIsValid` | kbuild/src/fat16.rs:395-437 | Whatever the bytes, an opened volume's tables, root and clusters lie inside them. |
| `FatReader.FollowChain` | kbuild/src/fat16.rs:456-479 | The loop of `chain` computes the chain or the first reason it has none. |
| `FatReader.ChainExact` | kbuild/src/fat16.rs:456-479 | Following succeeds exactly when links reach an end mark through usable clusters, and gives those clusters, each once. |
| `FatReader.LoopExact` | kbuild/src/fat32.rs:445-468 | A loop is reported exactly when there is one. |
| `FatFiles.ListEntries` | kbuild/src/fat16.rs:487-527 | The entry loop lists the named entries up to the first zero byte. |
| `FatFiles.Find` | kbuild/src/fat16.rs:597-616 | The component loop finds the entry the components lead to. |
| `FatOpened.FinishOpens` | kbuild/src/fat16.rs:310-330 | A finished volume opens with exactly the geometry it was written with. |
| `FatOpens.OpensExact` | kbuild/src/fat16.rs:395-437 | A written volume opens exactly when it has a table and a reserved sector: without a sector the signature is overwritten by a link, which never equals it. |
| `FatView.FinishShows` | kbuild/src/fat16.rs:302-306 | Every table copy of a finished volume reads as the writer's table, and clusters and root as stored. |
| `FatView.RunIsChain` | kbuild/src/fat16.rs:456-479 | A linked run reads back as the chain of its clusters. |
| `FatReadBack.FileReads` | kbuild/src/fat16.rs:625-645 | A stored file reads back whole. |
| `FatRoundTrip.DirReads` | kbuild/src/fat32.rs:477-513 | A stored directory lists as its subdirectories and files, label and dot entries passed over. |
| `FatLookup.LookupReads` | kbuild/src/fat16.rs:597-616 | From any stored directory, any query finds what it names in the tree. |
| `FatTheorems.VolumeReads` | kbuild/src/fat16.rs:625-645 | A volume of files opens, and every path reads as what it names in their tree. |
| `FatTheorems.ReadExact` | kbuild/src/fat32.rs:626-646 | For every path: it reads as data exactly when a file with that data is asked for, as a directory exactly when a file lies below it, as nothing exactly when neither. |
| `FatTheorems.RoundTrip` | kbuild/src/fat16.rs:625-645 | A file reads back under its own path in any case, unless a component ends in a dot; then the path reads as nothing. |
| `FatTheorems.SmallIsLow` | kbuild/src/fat32.rs:81-110 | A volume whose last cluster number is below the marks takes no cluster above them; every FAT16 volume is such a one. |
| `FatTheorems.UnlabelledReadsNothing` | kbuild/src/fat16.rs:499-502 | With a label that begins with zero the volume is written and opened, and every path reads as nothing. |
| `FatCheck.ClaimGrows` | kbuild/src/fat16.rs:548-594 | A claimed entry only adds clusters, and a claimed directory leaves strictly fewer unseen: the walk ends whatever the depth limit. |
| `FatCheck.WalkExact` | kbuild/src/fat32.rs:549-595 | The walk succeeds exactly when every reachable entry is sound and no two chains meet, and has then claimed exactly their clusters. |
| `FatCheck.CheckExact` | kbuild/src/fat32.rs:517-547 | `check` succeeds exactly on consistent volumes whose FSInfo is signed, for any bytes and any depth limit. |
| `FatCheck.CheckConserves` | kbuild/src/fat16.rs:532-546 | After a check every cluster is exactly one of claimed, lost, free and bad, and the counts sum to the clusters. |
| `FatCheck.CheckedReads` | kbuild/src/fat16.rs:625-645 | On a checked volume every path resolves without error, and every file it names reads as exactly `size` bytes. |
| `FatWalker.Walker.Mark` | kbuild/src/fat16.rs:576-580 | Marking a chain succeeds exactly when none of it was marked, and then marks exactly it. |
| `FatWalker.Walker.Walk` | kbuild/src/fat16.rs:548-594 | The walk over the mutable marks and counters computes `FatCheck.WalkDir`, and terminates by unseen clusters. |
| `FatWalker.CheckVolume` | kbuild/src/fat32.rs:517-547 | The whole of `check`, counting loops included, computes `FatCheck.Check` at the source's depth limit, and succeeds exactly on consistent signed volumes. |
| `FatClean.WalkStored` | kbuild/src/fat16.rs:548-594 | Walking a stored directory claims exactly the clusters below it and fails exactly past the depth limit. |
| `FatChecked.NestedIsShort` | kbuild/src/fat16.rs:556-558 | Directories nest at most n deep exactly when no path has more than n + 1 components. |
| `FatChecked.FinishFsInfo` | kbuild/src/fat32.rs:319-325 | The finished FSInfo sector carries its signatures and the free count. |
| `FatCounts.BuildCounts` | kbuild/src/fat16.rs:265-286 | A built tree holds exactly as many files as were given. |
| `FatCounts.DirPathIs` | kbuild/src/fat16.rs:265-286 | The directory paths of a tree are exactly the non-empty names that lead to a directory. |
| `FatChecked.DirsAre` | kbuild/src/fat32.rs:232-255 | The directories of a built tree are exactly the proper prefixes of the paths given. |
| `FatChecked.WrittenChecksClean` | kbuild/src/fat32.rs:517-547 | A written volume checks exactly when no path is too deep; then every file and every directory that a path passes through is counted, the clusters claimed are those the directories and files need, nothing is lost, no copies differ, claimed and free make up the volume, and FSInfo says what the walk counted. |
| `FatChecked.WrittenPassesCheck` | kbuild/src/fat16.rs:349-349 | At the source's limit of sixteen a written volume passes exactly when no path has more than seventeen components. |
| `Tcp.Conn.Receive` | kbuild/src/netpeer.rs:815-876 | One data segment changes the connection as `Tcp.Data` says, and is answered unless withheld. |
| `Tcp.Conn.Join` | kbuild/src/netpeer.rs:863-868 | The draining loop joins everything that follows on. |
| `Tcp.Conn.Close` | kbuild/src/netpeer.rs:944-953 | A FIN counts only in order. |
| `TcpSafety.ArriveIsSafe` | kbuild/src/netpeer.rs:725-779 | Any segment of the stream keeps the request a prefix of it, and never shrinks it. |
| `TcpSafety.Reassembly` | kbuild/src/netpeer.rs:815-876 | After any run of segments of one stream the request is a prefix of it and `rcv_nxt` is the number behind it, one more after the FIN. |
| `TcpPieces.DataMatches` | kbuild/src/netpeer.rs:815-876 | Over any fixed pieces the connection is a machine over piece numbers; a piece is withheld exactly when it counts as new and its count is one of those withheld. |
| `TcpLosses.AtMostTwoLost` | kbuild/src/netpeer.rs:835-858 | Whatever segments arrive, of one stream or of none, at most two of a connection are withheld. |
| `TcpProgress.Progress` | kbuild/src/netpeer.rs:835-858 | Unless the flow is exposed, once every piece was sent at least twice, in any interleaving, the request is the whole stream. |
| `TcpProgress.ExposedStalls` | kbuild/src/netpeer.rs:821-834 | Every exposed flow has a run that sends each piece twice and leaves one out for good. |
| `TcpProgress.ProgressExact` | kbuild/src/netpeer.rs:815-876 | Sending every piece twice always joins the whole stream, exactly when there is no boundary `z` with the number zero and bulk piece `b` below it with `z >= 3`, or `z == 2` and `b == 1`. |
| `TcpProgress.NoRetransmissionLost` | kbuild/src/netpeer.rs:821-834 | When no bulk piece lies below a boundary with the number zero, a piece that was sent before is never withheld. |
| `TcpProgress.RetransmissionExact` | kbuild/src/netpeer.rs:821-834 | No run withholds a piece that was sent before, exactly when no bulk piece lies below a boundary with the number zero. |
| `TcpProgress.ExposedFlow` | kbuild/src/netpeer.rs:821-834 | There are exposed flows: a bulk request and five bytes more that end where the numbers wrap. |
| `TcpSack.NameHeld` | kbuild/src/netpeer.rs:1140-1161 | The coalescing loop computes the held runs, first three only. |
| `TcpSack.CoalesceIs` | kbuild/src/netpeer.rs:1152-1158 | Joining ascending pieces gives exactly their maximal runs. |
| `TcpSack.SackExact` | kbuild/src/netpeer.rs:1140-1161 | After any run over a fixed segmentation the named blocks are the first three maximal runs of held bytes, ordered, apart and strictly past the hole, and none without SACK-permitted. |
| `Graph.Sorter.Visit` | kbuild/src/graph.rs:397-424 | Visiting puts a name out behind everything it depends on and leaves the stack as it was, or reports a real cycle. |
| `Graph.TopoSort` | kbuild/src/graph.rs:383-395 | The sort succeeds exactly on acyclic graphs, with every name once and dependencies first; a failure names a real cycle. |
| `Graph.OrderedIsAcyclic` | kbuild/src/graph.rs:383-395 | A graph with such an order has no cycle. |
| `Planner.Select` | kbuild/src/graph.rs:220-255 | The filter keeps the units the configuration enables and refuses a kind at the wrong level, naming the first such unit. |
| `Planner.Provide` | kbuild/src/graph.rs:258-270 | Providers are accepted exactly when no name is provided twice; the error names the first unit whose name an earlier one has. |
| `Planner.CheckEdges` | kbuild/src/graph.rs:272-368 | The edge loops accept exactly when every dependency exists and breaks no rule; the error names the first edge that does not, and the first rule it breaks. |
| `Planner.Plan` | kbuild/src/graph.rs:219-371 | `plan` succeeds exactly on what its rules accept, with a permutation of the enabled units, dependencies first; every error has the cause it names, found by the first check that fails. |
| `Reach.TransitiveDeps` | kbuild/src/main.rs:800-817 | The worklist computes exactly the names some path of dependencies leads to. |
| `Reach.PathRules` | kbuild/src/graph.rs:283-366 | Along any path of accepted edges ranks do not rise, and an architecture unit is reached only from the kernel or the architecture. |
| `Reach.LayeringLifts` | kbuild/src/graph.rs:17-33 | Among accepted units userspace reaches only userspace and builtins, nothing outside kernel and arch reaches arch, and a module reaches nothing above core. |
| `Reach.PlannedIsAccepted` | kbuild/src/graph.rs:272-370 | What `plan` returns is a list of accepted units, so the lifted rules hold of it. |
| `Dwarf.Machine.Emit` | kbuild/src/dwarf.rs:296-319 | A row closes the span before it and, at line 0, takes the previous row's file and line. |
| `Dwarf.Machine.Run` | kbuild/src/dwarf.rs:321-380 | Running a program emits exactly the spans of its rows, sequence by sequence. |
| `Dwarf.SpecialIsThree` | kbuild/src/dwarf.rs:323-329 | A special opcode is an address advance, a line advance and a copy. |
| `DwarfTable.SequenceTiles` | kbuild/src/dwarf.rs:296-319 | The spans of a sequence with non-decreasing addresses run from its first row to its end without gap or overlap. |
| `DwarfTable.TilesPartition` | kbuild/src/dwarf.rs:296-319 | Each address of that range lies in exactly one span, and no other address in any. |
| `DwarfTable.ParseTable` | kbuild/src/dwarf.rs:166-181 | The section's table is the sorted spans of all its rows. |
| `DwarfTable.LookupAddress` | kbuild/src/dwarf.rs:147-156 | Binary search and at most eight steps back compute the lookup. |
| `DwarfTable.LookupExact` | kbuild/src/dwarf.rs:147-156 | In any sorted table, overlapping or not, lookup finds the last span that holds the address exactly when fewer than eight spans starting at or below it follow that one, and else nothing. |
| `DwarfTable.LookupApart` | kbuild/src/dwarf.rs:147-156 | Among spans apart that bound costs nothing: lookup finds the span that holds the address, and nothing exactly when none does. |
| `DwarfTable.LookupRefines` | kbuild/src/dwarf.rs:147-156 | An address inside a sequence is looked up as the last row at or below it, line 0 attributed; an address outside all is not found. |
| `DwarfTable.Locate` | kbuild/src/dwarf.rs:147-181 | Parsing a section and looking an address up in it names the place of the last row at or below it, or nothing outside every sequence. |
| `Sha256Stream.CompressBlock` | kbuild/src/sha256.rs:99-142 | The schedule and round loops compute the compression function of section 6.2.2 of FIPS 180-4. |
| `Sha256Stream.Hasher.Update` | kbuild/src/sha256.rs:45-69 | Buffering, whole blocks and leftovers keep value, pending bytes and length what `Sha256.Absorb` says. |
| `Sha256Stream.Hasher.Digest` | kbuild/src/sha256.rs:71-85 | The padding loop terminates, and the value put out is the finished stream's. |
| `Sha256.PaddingIsLeast` | kbuild/src/sha256.rs:72-77 | A padded message is whole blocks, with the least number of zeros. |
| `Sha256.TakeTwice` | kbuild/src/sha256.rs:45-69 | Taking bytes in two steps is taking them in one. |
| `Sha256.StreamIsHash` | kbuild/src/sha256.rs:45-97 | For every cutting of a message into updates, finishing gives the one-shot hash of the whole. |
| `Sha256Stream.HashChunks` | kbuild/src/sha256.rs:156-160 | Hashing chunk by chunk returns the hash of the joined chunks. |
| `Menuconfig.ApplyKeeps` | kbuild/src/menuconfig.rs:325-357 | An accepted change keeps the session sound; a refused one changes nothing. |
| `Menuconfig.SetsAre` | kbuild/src/menuconfig.rs:307-323 | Picking a choice member asks for each symbol at most once. |
| `MenuSession.StepKeeps` | kbuild/src/menuconfig.rs:169-253 | Any key keeps the session's invariant. |
| `MenuSession.QuitIsConfirmed` | kbuild/src/menuconfig.rs:169-181 | A session with unsaved changes is left only from the confirmation, and only by its answer. |
| `MenuSession.RunsStaySound` | kbuild/src/menuconfig.rs:169-253 | After any run of keys and saves the resolution is the resolver's for base and changes, no symbol is changed twice, and quitting unasked loses nothing. |
| `MenuSession.Session.Request` | kbuild/src/menuconfig.rs:325-357 | The filter loop and the resolver change the session as `Menuconfig.Apply` says. |
| `MenuSession.Session.SetTo` | kbuild/src/menuconfig.rs:307-323 | The member loop turns off what was picked before with the same change. |
| `MenuSession.Session.Toggle` | kbuild/src/menuconfig.rs:257-291 | Activating toggles a bool, steps a tristate, picks a member or starts an edit. |
| `MenuSession.Session.Press` | kbuild/src/menuconfig.rs:169-200 | A key changes the session and asks for the action `Menuconfig.Step` says. |
| `MenuSession.Session.PressList` | kbuild/src/menuconfig.rs:202-253 | A key on a list does what `Menuconfig.OnList` says. |
| `Settings.ReadAll` | kbuild/src/codegen.rs:267-286 | The line loop reads the settings or names the first bad line. |
| `Preset.WritePreset` | kbuild/src/menuconfig.rs:359-385 | The collecting and writing loops give one line to a symbol, the last word winning. |
| `Preset.WrittenComesToTheSame` | kbuild/src/menuconfig.rs:359-385 | One line to a symbol comes to the same last-wins map as all requests. |
| `Preset.LineReadsBack` | kbuild/src/codegen.rs:270-284 | A line reads back as its request exactly when the symbol is a string or the value is plain. |
| `Preset.PresetReads` | kbuild/src/codegen.rs:267-286 | A saved preset reads back as the last request of each symbol, a quoted value whole and a bare one trimmed and without quotes. |
| `Preset.PresetReadsBack` | kbuild/src/menuconfig.rs:359-385 | A saved preset reads back as the last request of each symbol, and as the last-wins map of all requests, exactly when every value has one line and is quoted or plain. |
| `Preset.OnlyWritableReadsBack` | kbuild/src/codegen.rs:279-282 | A single request survives the preset exactly when its value has one line and is quoted or plain. |
| `Markers.MarkerCounter.Feed` | kbuild/src/qemu.rs:1465-1482 | Feeding a chunk counts exactly the occurrences that end in it, keeping the tail. |
| `Markers.CountSplits` | kbuild/src/qemu.rs:1465-1482 | Every occurrence is counted in what was seen or in the tail and what follows, never in both. |
| `Markers.CountIsPlaces` | kbuild/src/qemu.rs:1471-1474 | The count is the number of offsets where the marker stands, overlaps included. |
| `Markers.CountChunks` | kbuild/src/qemu.rs:1448-1482 | Counting chunk by chunk counts the joined stream, however it was cut. |
| `InternetChecksum.ComputeChecksum` | kbuild/src/qemu.rs:1285-1299 | The summing and folding loops compute the checksum of RFC 1071. |
| `InternetChecksum.FoldIs` | kbuild/src/qemu.rs:1295-1297 | Folding keeps the sum modulo 2^16 - 1, and only a zero sum folds to zero. |
| `InternetChecksum.StoredVerifies` | kbuild/src/qemu.rs:1274-1276 | Storing the checksum in a zeroed aligned field makes the whole sum to zero, for any data. |
| `InternetChecksum.UdpVerifies` | kbuild/src/netpeer.rs:1192-1195 | With zero stored as all ones the field is never zero and still verifies. |
| `InternetChecksum.UdpFrameVerifies` | kbuild/src/netpeer.rs:1182-1196 | A frame with its UDP checksum stored sums to zero over the pseudo-header. |
| `Fragments.FragmentDatagram` | kbuild/src/qemu.rs:1258-1282 | Building both fragments gives what `Fragments.Split` says, or nothing. |
| `Fragments.FragmentDescribes` | kbuild/src/qemu.rs:1269-1279 | A fragment carries its part, its own length, offset and flag, a header that sums to zero, and else the packet's header. |
| `Fragments.FragmentsRejoin` | kbuild/src/qemu.rs:1258-1282 | Two payloads put together are the datagram's, the first a multiple of eight bytes with the second's offset matching, for every packet with at least 16 payload bytes and no other. |
| `Fragments.FragmentIsNoPacket` | kbuild/src/qemu.rs:1244-1255 | A fragment is not taken for a whole packet. |

## Left out

- Process, file and socket plumbing, and the drawing of terminals.
- The configuration resolver itself: menuconfig is proved over any resolver that gives every symbol of the table a value.
- `kbuild/src/bios.rs`, `kbuild/src/image.rs`, `pe.rs`, `buildid.rs`, `modules.rs`, `size.rs`, `symbolize.rs`, `soak.rs` and `lint.rs`: they would add easier members only.
- Lossy UTF-8 decoding in the FAT and DWARF readers: names are compared byte by byte, and `trim_end` removes ASCII white space only.
- The first cluster of a directory is written into the tree by the source; here `FatBuilder.Writer.Place` returns the placed tree as a value.
- The volume reader's cluster and entry accessors are values over the bytes, as the source's are borrowed slices.
- The reply half of the TCP peer: what it sends, `snd_nxt`, `pending` and the judging of connections it opened. A repeated SYN changes nothing of what is modelled.
- What is joined from guests that do not send one consistent stream.
- FAT32 volumes that take more clusters than the specification's numbers allow: the source writes them, and what their longest chains read as is not stated.
- ELF and DWARF header parsing and the decoding of opcodes from bytes: the line machine runs over decoded operations, and its line register does not overflow.
- `split_reversed`, the TCP checksum and Ethernet, ARP and ICMP frames: the checksum law covers them.
- Status lines, help texts and rows drawn by menuconfig.

# Verified models of OpenList's storage drivers

OpenList serves many storage back ends as one tree of files. Most of a driver is requests to a remote
service; this project is about the parts that are not, where a wrong step loses a file, over-admits
downloads or corrupts an upload. Each module models one of them in Dafny and proves what it promises.

- **Alias driver.** `AliasPolicy` probes same-name back ends lazily and compacts the list over itself under
  a stateful conflict filter; the result is that of probing everything first. `AliasMatching` pairs the
  sources of a move or a copy with destinations, overwriting the destination list while it is consumed; a
  move keeps as many pairs on one mount as any assignment can. `AliasMove` puts the two together, from the
  lazily built lists to what a move or a copy does. `AliasQuota` is the weighted choice of a back
  end, in wrapping 64-bit arithmetic.
- **Callback limiter.** `LimiterProtocol` is the per-user admission limiter as a state machine with its
  invariant; `CallbackLimiter` are the objects, each critical section proved to be one step of the machine;
  `CallbackReader` is the retry loop and the response body that owns a permit.
- **Share link tree.** `IndentTree` says what tree an indented text denotes, `LinkTree` is the stack parser
  and the sizing pass on heap nodes, and `LinkText` prints a tree as text and reads it back.
- **Uploads.** `SliceHash` is the streaming slice hasher, the block reader it must agree with, and the parts
  sent. `BlockUpload` is the resumable upload with its saved progress and expiring ids. `ChunkSplit` cuts a
  file into multipart chunks.
- **Shares.** `ShareRefs` writes references into object ids and reads them back; `ShareMerge` merges the
  listings of several shares by name.
- **Codecs and merging.** `Base64Hex` regroups base64 into base16, `Md5Scramble` is a reversible scrambling,
  and `JsonMerge` is the recursive merge of nested dictionaries, in place.

Things found on the way, each with a proof beside the property it limits:

- `getMoveObjs` drops a source whose storage lookup fails, so the inequality in its comment at line 439 holds
  exactly when enough sources have a storage; otherwise `Move` indexes past its sources
  (`AliasMatching.LeftoversSuffice`, `AliasMatching.VirtualSourceBreaksMove`, `AliasMatching.Move`).
- `selectRandom` is proportional to the weights exactly when their sum is below 2^64; a sum that wraps to zero
  refuses an upload although every back end has room, and refusals are right exactly when it does not wrap
  (`AliasQuota.FairExactlyWithoutOverflow`, `AliasQuota.OverflowRefuses`, `AliasQuota.UploadRefusedRightly`).
- The size that `getPutObjs` compares with free space is that of the destination directory's entry, as
  `driver.go` passes it at line 420, not that of the file being uploaded. A back end with five free bytes is
  given a file of any size; the file fits wherever it may be sent exactly when every back end in reach of the
  draw has room for it (`AliasQuota.SmallBackendTakesAnyFile`, `AliasQuota.UploadFitsExactly`).
- When the upload id expires in both passes, the upload loop is left by `continue` and the file is created
  with no block of its id accepted (`BlockUpload.RunTwoExpiries`, `BlockUpload.Uploader.UploadAndCreate`).
- The streaming hasher and the block reader agree on every input but the empty one, for which only the first
  reports a slice (`SliceHash.BothDigests`).
- A share whose link id starts with `shares:` cannot be read back from its own object id, so its directories
  are not merged. A name decodes to all its directories exactly when all their link ids can be read back
  (`ShareRefs.OneRefRoundTrip`, `ShareMerge.PrefixedLinkIsNotMerged`, `ShareMerge.MergedExactlyWhenReadable`).
- Encrypting and decrypting an MD5 loses its letter case (`Md5Scramble.EncryptThenDecrypt`).
- `SplitFile` indexes an empty list for a file of exactly 9 GB, and refuses files below 1000 bytes
  (`ChunkSplit.SplitFile`).

Two conventions. What a remote service, a clock, a random source or a context answers is a parameter, so a
statement holds for every answer. A Go panic is a result of its own (`None`, `Panic`, `panicked`), never a
precondition.

## Model

| member | source | states |
|---|---|---|
| AliasMatching.GetMoveObjs | drivers/alias/util.go:390-445 | refused exactly when there are fewer sources than destinations or a destination has no storage, naming the first such one; otherwise the sources returned are a permutation of those with a storage, the destination list ends as a permutation of itself, and the pairs on one mount number the sum over mounts of the smaller side |
| AliasMatching.NoAssignmentBeatsBest | drivers/alias/util.go:416-437 | no one-to-one assignment of any of the sources to any of the destinations has more same-mount pairs than that sum |
| AliasMatching.SamePairsCounts | drivers/alias/util.go:424-437 | the same-mount pairs are the positions at which source and destination have a storage on one mount |
| AliasMatching.MatchedThenDisjointIsBest | drivers/alias/util.go:424-443 | matched pairs followed by leftovers that share no mount reach the best count exactly |
| AliasMatching.GroupByMount | drivers/alias/util.go:405-415 | every destination is filed once under its own mount, or the first one without a storage is named |
| AliasMatching.PlaceSource | drivers/alias/util.go:418-437 | a source takes a free destination on its mount or is set aside, and every destination stays either taken or free |
| AliasMatching.AppendPending | drivers/alias/util.go:438-443 | the leftovers fill the rest of the list, whatever order the map yields them in |
| AliasMatching.LeftoversSuffice | drivers/alias/util.go:439 | the commented inequality holds if and only if at least as many sources as destinations have a storage |
| AliasMatching.VirtualSourceBreaksMove | drivers/alias/util.go:419-422 | a source on a virtual path passes the length comparison and is then lost |
| AliasMatching.PerformMove | drivers/alias/driver.go:373-382 | pair by pair, then the removal of what is left; it panics exactly when sources run out |
| AliasMatching.Move | drivers/alias/driver.go:370-385 | ends normally exactly when no fewer reachable sources than destinations exist; then the destinations are filled each once and in their new order, each reachable source is moved or removed once, sources and destinations are paired in order on every mount, and the moves that stay on one mount are as many as any assignment can have |
| AliasMatching.GetCopyObjs | drivers/alias/util.go:339-388 | every kept destination is listed exactly once although the list is overwritten meanwhile; each is paired with the first source on its mount, or with the first or any kept source when there is none |
| AliasMatching.FirstOnIsFirst | drivers/alias/util.go:363-377 | the source a mount is served from is the earliest one on it |
| AliasMatching.Overwrite | drivers/alias/util.go:370-374 | a group of destinations is written over the list from a position on, leaving what precedes it |
| AliasMove.KeepAll | drivers/alias/util.go:394-401 | the objects a request works on are exactly those the policy keeps, with their paths in their order; with every hit kept there is at least one |
| AliasMove.Move | drivers/alias/driver.go:370-385 | from the two lazily built lists: refused with the put policy's error, for too few sources, or for a destination without storage; otherwise each kept destination is filled once, each reachable source consumed once, and as many moves stay on one mount as any assignment can have, unless it panics for want of reachable sources |
| AliasMove.Copy | drivers/alias/driver.go:397-407 | from the two lazily built lists: each kept destination is written exactly once, from the first source on its mount or else a kept source |
| AliasMove.PerformCopy | drivers/alias/driver.go:400-404 | copies each source to the destination at its place |
| AliasPolicy.Ask | drivers/alias/util.go:187-223 | what the filter's two captured variables mean: after any prefix they say how many hits there were and whether any entry was missed; it keeps an entry, passes over it, or refuses with an error that is damning for the whole list |
| AliasPolicy.Visit | drivers/alias/util.go:126-168 | one entry of the loop: the list stays the hits so far over the untouched rest, or the loop ends in a way that settles the request |
| AliasPolicy.GetAllObjs | drivers/alias/util.go:123-173 | the compacted list is what the policy decides on all the hits of the original list, the tail is untouched, and a refusal is the policy's |
| AliasPolicy.RefusalIsFinal | drivers/alias/util.go:197-218 | a refusal after any prefix is the decision on the whole list |
| AliasPolicy.Get | drivers/alias/driver.go:114-170 | the list is the first answer, one nil for all earlier misses, and the paths not probed; an error means nothing answers |
| AliasPolicy.LazyHitsTail | drivers/alias/driver.go:158-166 | the lazy list has exactly the hits of the full probe |
| AliasPolicy.LazyMeetsEager | drivers/alias/driver.go:151-167 | deciding on the lazy list is deciding on the full probe, for every policy |
| AliasPolicy.Resolve | drivers/alias/util.go:225-230 | lazy probing with in-place compaction gives the paths or the refusal of probing every configured path first |
| AliasPolicy.ComplaintMeans | drivers/alias/util.go:131-143 | a path is acted on if and only if it answers with the same kind and, for files under the check, the same size and no differing hash; a file for a folder and a folder for a file have their own errors |
| AliasPolicy.NoAnswer | drivers/alias/util.go:169-171 | with no answer at any path, every policy finds nothing |
| AliasPolicy.PoliciesMean | drivers/alias/util.go:187-230 | from the paths and their answers alone: which paths each policy acts on, when it refuses, and with which error |
| AliasQuota.SelectRandom | drivers/alias/util.go:320-337 | fails exactly when the wrapped total is zero; otherwise returns the index whose weight interval holds the reduced draw, of positive weight, and never reaches its last return |
| AliasQuota.PickIsUnique | drivers/alias/util.go:329-335 | one residue leads to one index, never of zero weight |
| AliasQuota.ResidueCount | drivers/alias/util.go:328-335 | how many residues below any total lead to an index |
| AliasQuota.FairExactlyWithoutOverflow | drivers/alias/util.go:321-335 | every index is drawn for exactly as many residues as its weight if and only if the sum stays below 2^64 |
| AliasQuota.DrawnByFreeSpace | drivers/alias/util.go:293-335 | without overflow a back end is drawn for exactly as many residues as it has free bytes, if it reports at least the compared size, and otherwise for none |
| AliasQuota.PickByQuota | drivers/alias/util.go:293-318 | the back end drawn reports enough room; without a draw, strict mode refuses and lax mode takes one that reports nothing, if there is one |
| AliasQuota.NoWeightMeansNoRoom | drivers/alias/util.go:294-299 | the weights sum to zero if and only if no back end reports room |
| AliasQuota.RefusalsAreRight | drivers/alias/util.go:293-316 | a strict draw is refused exactly when no back end has room, if and only if the weights do not wrap to zero; a lax one exactly when moreover every back end reports, if and only if they do not wrap or some back end reports nothing |
| AliasQuota.OverflowRefuses | drivers/alias/util.go:321-327 | three back ends with room whose weights sum to 2^64, so that every strict draw is refused |
| AliasQuota.FitsExactly | drivers/alias/util.go:294-317 | for a file of any size: every draw lands on a back end with room for the file, as far as it reports, if and only if every back end in reach of the draw has room for it |
| AliasQuota.RoomWithoutOverflow | drivers/alias/util.go:294-317 | while the sum stays below 2^64, in reach means: with room for the compared size |
| AliasQuota.ChooseBackends | drivers/alias/util.go:240-256 | all kept back ends, any one of them, or one by quota, policy by policy; when each quota mode refuses rightly, as an if-and-only-if |
| AliasQuota.SmallBackendTakesAnyFile | drivers/alias/util.go:249 | with the size of a directory's entry, a back end with five free bytes is the one and only answer for a file of any size |
| AliasQuota.GetPutObjs | drivers/alias/util.go:232-257 | the whole choice, from the lazily built list to the back ends of the upload: the policy's refusal, the lack of space, or a choice among exactly what the policy keeps |
| AliasQuota.UploadFitsExactly | drivers/alias/driver.go:419-432 | the file being uploaded fits wherever the draw may send it if and only if every kept back end in reach has room for it, whatever size the directory's entry has |
| AliasQuota.UploadRefusedRightly | drivers/alias/util.go:249-252 | an upload is refused for want of space exactly when it should be, if and only if the weights of the kept back ends do not wrap to zero (or, in lax mode, some kept back end reports nothing) |
| LimiterProtocol.StepKeeps | drivers/aliyundrive_open/callback.go:60-160 | every register, unregister, acquire attempt and release keeps the invariant: table entries, permit counts, registrations and waiters |
| LimiterProtocol.ExecKeeps | drivers/aliyundrive_open/callback.go:60-160 | so does every interleaving of any length |
| LimiterProtocol.OneLimiterPerUser | drivers/aliyundrive_open/callback.go:60-97 | after every interleaving a limiter is in the table exactly while it has a registration or an unreleased permit, `active` counts its unreleased permits, and two live limiters have different users |
| LimiterProtocol.NoLostWakeUp | drivers/aliyundrive_open/callback.go:108-127 | after every interleaving, if something is registered and fewer permits are out than every registered limit, the channel any waiter kept has been closed |
| LimiterProtocol.RoomMeans | drivers/aliyundrive_open/callback.go:108-138 | there is room if and only if something is registered and fewer permits are out than every registered limit |
| LimiterProtocol.RetiredForGood | drivers/aliyundrive_open/callback.go:82-97 | a limiter that has run empty never becomes live or listed again, however late its handles are used |
| LimiterProtocol.EntryLeavesOnlyWhenEmpty | drivers/aliyundrive_open/callback.go:145-160 | no call replaces a user's entry, and none removes it while its limiter has anything registered or held |
| LimiterProtocol.NoOverAdmission | drivers/aliyundrive_open/callback.go:109-114 | only an admission raises `active`, and then not above any registered limit, also when limits were lowered below `active` |
| CallbackLimiter.SharedLimiter.LimitLocked | drivers/aliyundrive_open/callback.go:130-138 | 0 with no registration, otherwise a registered limit that no other is below, for any order of the map |
| CallbackLimiter.LimiterTable.Register | drivers/aliyundrive_open/callback.go:60-80 | a register call that can be made is added to the run the objects are in: the user's limiter is found or created |
| CallbackLimiter.LimiterTable.Unregister | drivers/aliyundrive_open/callback.go:82-97 | likewise, for any registration ever handed out and however often it is given back |
| CallbackLimiter.LimiterTable.TryAcquire | drivers/aliyundrive_open/callback.go:109-116 | likewise; a permit if and only if something is registered and fewer permits are out than every registered limit, otherwise the current channel |
| CallbackLimiter.LimiterTable.Release | drivers/aliyundrive_open/callback.go:145-160 | likewise, for any permit ever handed out and however often it is released |
| CallbackLimiter.OneLimiterPerUser | drivers/aliyundrive_open/callback.go:28-97 | of the objects after any run of these calls: a limiter is in the table exactly while it has a registration or an active permit, `active` is the number of its unreleased permits, and two such limiters have different users |
| CallbackLimiter.NoLostWakeUp | drivers/aliyundrive_open/callback.go:108-127 | of the objects after any run: if a limiter has a registration and fewer permits out than every registered limit, the channel kept by anybody waiting for it has been closed |
| CallbackReader.OpenRange | drivers/aliyundrive_open/callback.go:172-205 | which attempt settles the request and how; each earlier attempt took a permit and gave it back, and one is held at the end exactly when a body is returned |
| CallbackReader.VerdictMeans | drivers/aliyundrive_open/callback.go:177-203 | in terms of the answers alone: a body is returned for an admitted attempt that opened; a failed open and a failed admission end the request at once; only a rejection is retried, up to three attempts, unless the context is done |
| CallbackReader.CallbackBody.Close | drivers/aliyundrive_open/callback.go:282-295 | the permit is returned and the response closed once; only the first call reports an error |
| CallbackReader.CallbackBody.Handle | drivers/aliyundrive_open/callback.go:265-280 | a read error, a close and a cancellation each close the body, nothing else does |
| CallbackReader.LiveBody | drivers/aliyundrive_open/callback.go:265-295 | a body's permit is given back once if a read error, a close or a cancellation ever happens, and otherwise not |
| CallbackReader.Lifetime | drivers/aliyundrive_open/callback.go:172-295 | from first admission to last event, at most three permits are taken, never two are held, each failed attempt gives its permit back, and the body gives back its own once, at the first read error, close or cancellation |
| IndentTree.Parent | drivers/123_link/parse.go:56-61 | the latest earlier folder of smaller level that no line in between closed |
| IndentTree.KidsMembers | drivers/123_link/parse.go:62-83 | a node's children are, in order, exactly the lines whose parent it is |
| IndentTree.KidsAreSiblings | drivers/123_link/parse.go:62-83 | the children of a node head the consecutive ranges of lines below it |
| IndentTree.TreeFollowsKids | drivers/123_link/parse.go:62-83 | the tree read off the ranges is the one the children link up |
| IndentTree.LinesOfTrees | drivers/123_link/parse.go:32-86 | the tree in depth-first order is the lines in their order |
| IndentTree.TreesOfLines | drivers/123_link/parse.go:32-86 | printing any well-formed forest by level and reading it again rebuilds it |
| IndentTree.TreesAreWellFormed | drivers/123_link/parse.go:32-86 | what a list of lines denotes is well-formed |
| IndentTree.LevelsIncrease | drivers/123_link/parse.go:56-72 | levels strictly increase along the stack |
| IndentTree.StackStep | drivers/123_link/parse.go:56-83 | popping what a line closes leaves its parent on top and the stack exactly the open folders |
| LinkTree.PopClosed | drivers/123_link/parse.go:58-61 | pops exactly the folders the line closes and never the root |
| LinkTree.Adopt | drivers/123_link/parse.go:70-82 | appending the new node to its parent keeps every node linked to exactly its children |
| LinkTree.Place | drivers/123_link/parse.go:56-83 | one line extends the tree and the stack, and changes no size |
| LinkTree.BuildTree | drivers/123_link/parse.go:32-86 | the heap tree has exactly the shape the lines denote, each node with its line's name, level, URL and, for a file, size, or the first bad line is reported |
| LinkTree.CalSize | drivers/123_link/types.go:43-53 | returns a file's own size, or the sum of what a folder's children come to, and assigns sizes in that subtree alone |
| LinkTree.TotalMeans | drivers/123_link/types.go:43-53 | the total of the files at or below a folder is the sum of its children's totals |
| LinkTree.SizeRoot | drivers/123_link/types.go:43-53 | every folder's size is the sum of its children's sizes, every file has the size of its line, and no link changes |
| LinkTree.Init | drivers/123_link/driver.go:28-36 | building and sizing together: every file node has its line's size and every folder node the sum of its children's sizes |
| LinkText.ReadsBack | drivers/123_link/parse.go:37-55 | a line printed with two spaces a level is read as the line it was printed from |
| LinkText.ReadLineMeans | drivers/123_link/parse.go:37-55 | any line at all: an odd number of leading spaces is refused even on a blank line, a blank line is nothing, and otherwise the text without surrounding white space is a folder when it ends in a colon and else what the file parser makes of it, at half the indent |
| LinkText.PrintThenRead | drivers/123_link/parse.go:32-86 | printing any well-formed forest as text and reading the text gives its lines and the same forest |
| LinkText.PrintThenBuild | drivers/123_link/parse.go:32-86 | building the printed text leaves a root node under which exactly that forest hangs, each file with its size |
| LinkText.BuildAndRead | drivers/123_link/parse.go:32-86 | the nodes built from any text form a well-formed tree whose depth-first order is the text's lines, or the first bad line is reported |
| LinkText.ShapeHangs | drivers/123_link/parse.go:62-83 | what the nodes link up at any line is the tree the text denotes there |
| SliceHash.SliceAt | drivers/189/util.go:529-549 | slice i is the bytes from i times the size on |
| SliceHash.SliceHashWriter.Feed | drivers/189/util.go:534-549 | the finished slices and the running hash always split what was written at the last slice boundary |
| SliceHash.SliceHashWriter.Write | drivers/189/util.go:521-556 | takes all bytes, or none when cancelled |
| SliceHash.SliceHashWriter.Last | drivers/189/util.go:342-345 | the digests are those of the consecutive slices of everything written, one empty slice for empty input |
| SliceHash.ComputeSliceDigests | drivers/189pc/torrent.go:301-329 | the digests of the whole and of the consecutive slices, or nothing when the reader fails |
| SliceHash.BothDigests | drivers/189/util.go:509-556 | for every cutting of a stream into writes: the writer reports the digests of its consecutive slices (one for an empty stream), the block reader those of the same slices, and the two lists are equal if and only if the stream is not empty |
| SliceHash.UploadParts | drivers/189/util.go:390-411 | the parts sent are the slices that were digested |
| SliceHash.TorrentMatchesUpload | drivers/189/torrent.go:17-23 | the slice digest of the torrent is that of the upload, up to letter case, also when the digests were not computed |
| BlockUpload.Upload.UploadAll | drivers/baidu_netdisk/driver.go:316-347 | exactly the accepted entries are crossed off; accepted and remaining blocks stay a partition of the blocks asked for; complete exactly when every one was accepted |
| BlockUpload.Upload.Compact | drivers/baidu_netdisk/driver.go:354-355 | keeps exactly the remaining blocks in order |
| BlockUpload.PendingMeans | drivers/baidu_netdisk/driver.go:354-355 | the remaining blocks are the entries that are not crossed off, each as often as it is listed, in order |
| BlockUpload.Uploader.RunPass | drivers/baidu_netdisk/driver.go:300-378 | leaves by break exactly when waiting reports no error and every block was accepted; otherwise exactly what is left is saved, a refused, rapid or fresh renewal and every other error end the pass each in its own way, and a fresh one restarts from the full new list |
| BlockUpload.Uploader.Begin | drivers/baidu_netdisk/driver.go:275-290 | saved progress is taken up as it is, else the server's answer decides |
| BlockUpload.Uploader.TwoPasses | drivers/baidu_netdisk/driver.go:298-378 | how the loop ends and under which id, for every pair of passes; everything is accepted, or the progress is saved, or two expiries leave nothing accepted |
| BlockUpload.Uploader.UploadAndCreate | drivers/baidu_netdisk/driver.go:298-392 | which outcome, under which id, and what is saved afterwards; the file is created with every block of its id accepted if and only if the id did not expire twice or no block is wanted |
| BlockUpload.Uploader.Put | drivers/baidu_netdisk/driver.go:275-393 | the same from saved progress or a new id, with the outcome of every answer of the server |
| BlockUpload.SecondExpiryCreatesNothing | drivers/baidu_netdisk/driver.go:361-383 | a concrete script of two expiries ends with the file created under the third id, for which a block was asked |
| BlockUpload.EndedMeans | drivers/baidu_netdisk/driver.go:298-392 | the outcome read off the answers: what waiting reports, what a renewal answers and which blocks were accepted decide, in one pass or in two, how a call ends and under which id |
| BlockUpload.RunTwoExpiries | drivers/baidu_netdisk/driver.go:298-383 | the same script on the objects: the file is created although no block of its id was accepted |
| BlockUpload.Resume | drivers/baidu_netdisk/driver.go:354-377 | any number of failed passes, each resumed from the last, keeps accepted plus saved equal to the initial list |
| BlockUpload.SectionIsSlice | drivers/baidu_netdisk/driver.go:219-229 | the section sent as block i lies inside the file and is its i-th slice |
| BlockUpload.SliceCount | drivers/baidu_netdisk/driver.go:221-224 | as many blocks are numbered as a non-empty file has slices |
| ShareRefs.UnescapeEscape | drivers/139/util.go:560-576 | percent-encoding (section 2.1 of RFC 3986) is undone, and never yields a bar |
| ShareRefs.EscapedOne | drivers/139/util.go:560-562 | which bytes stay; any other one becomes a percent sign and its two uppercase hexadecimal digits |
| ShareRefs.EscapeJoins | drivers/139/util.go:560-562 | escaping works byte by byte |
| ShareRefs.UnescapedOne | drivers/139/util.go:569-573 | hexadecimal digits of either case are read, and a malformed escape makes the whole text unreadable |
| ShareRefs.RefRoundTrip | drivers/139/util.go:560-576 | a reference comes back from its encoding if and only if its link id is not empty |
| ShareRefs.PlainRef | drivers/139/util.go:560-562 | fields that need no escape are written as link, password and node with bars between them |
| ShareRefs.DecodeRefMeans | drivers/139/util.go:564-576 | for any three parts: they are link, password and node in this order, each unescaped, and an unreadable part or an empty link refuses the id |
| ShareRefs.TooFewParts | drivers/139/util.go:564-568 | an id with fewer than two bars is not a reference |
| ShareRefs.OneRefRoundTrip | drivers/139/util.go:578-597 | a single reference comes back from its object id if and only if its link id is not empty and does not start with the list prefix |
| ShareRefs.Pack64RoundTrip | drivers/139/util.go:587-598 | unpadded URL-safe base64 (section 5 of RFC 4648) of any bytes is read back, line breaks ignored |
| ShareRefs.UrlAlphabet | drivers/139/util.go:587-598 | the URL-safe alphabet, and that no other character has a value in it |
| ShareRefs.PackIsBase64 | drivers/139/util.go:587 | packed text is standard base64 with two characters replaced and the padding dropped (sections 4 and 5 of RFC 4648) |
| ShareRefs.GroupsMean | drivers/139/util.go:598-601 | any group of two, three or four digits is read by the value of its bits, left-over bits ignored |
| ShareRefs.BarIsForeign | drivers/139/util.go:598-601 | no text with a bar in it is read as a list |
| ShareRefs.RefsRoundTrip | drivers/139/util.go:578-607 | every longer list comes back too, given that JSON gives it back |
| ShareRefs.FaithfulCodec | drivers/139/util.go:583-605 | some way of writing lists gives back every list of references to named shares, so that hypothesis can be met |
| ShareMerge.KnownName | drivers/139/util.go:710-725 | what a repeated name does to what is shown under it |
| ShareMerge.TwoDirectories | drivers/139/util.go:710-724 | decoding, appending and encoding again makes of two directories with one name exactly what is to be shown |
| ShareMerge.AddItem | drivers/139/util.go:703-725 | one listing row keeps the two locals in step with the specification |
| ShareMerge.GetMergedFiles | drivers/139/util.go:691-731 | from the shares and their answers alone: an error if and only if nothing was listed and some share failed, and then the first; otherwise each name once in the order of first rows, a name first seen as a directory decoding to the link, password and row id of exactly its readable directory rows in order, and any other name showing its first row's size, time and own reference |
| ShareMerge.ListingFromShares | drivers/139/util.go:637-687 | the row-by-row description of a listing and the one the loop maintains agree, share by share |
| ShareMerge.ShownDecodes | drivers/139/util.go:713-724 | the id shown for a directory decodes to the references merged under it, or to nothing if its first one is unreadable |
| ShareMerge.MergedExactlyWhenReadable | drivers/139/util.go:710-724 | a name first seen as a directory decodes to the references of all its directory rows, in order, if and only if every one of those rows can be read back |
| ShareMerge.MergedListing | drivers/139/util.go:691-731 | each name once, in the order of first occurrence, and none left out; a name first seen as a directory decodes to the references that can be read back, in order, unless its first one cannot; any other name is its first row |
| ShareMerge.PrefixedLinkIsNotMerged | drivers/139/util.go:590-597 | a directory first listed by a share whose link id starts with the list prefix decodes to nothing, whatever follows |
| Base64Hex.B64ToHex | drivers/189/help.go:53-85 | the loop computes the conversion, step by step of the regrouping machine |
| Base64Hex.Convert | drivers/189/help.go:58-60 | nothing comes out, as the program panics, exactly when some character is neither a digit nor padding |
| Base64Hex.RunIsHex | drivers/189/help.go:53-85 | from the start of any group, padded base64 of any bytes yields their base16 |
| Base64Hex.ConvertedBase64IsHex | drivers/189/help.go:53-85 | for every byte string, the conversion of its padded base64 (section 4 of RFC 4648) is its lowercase base16 (section 8 of RFC 4648) |
| Base64Hex.Base64Alphabet | drivers/189/help.go:44-58 | the base64 alphabet written out |
| Base64Hex.Base64Means | drivers/189/help.go:53-85 | the four characters of every whole group of base64 carry the 24 bits of its three bytes |
| Base64Hex.Base64Ends | drivers/189/help.go:53-85 | a short last group of base64 carries its bytes' bits, then zero bits and padding |
| Base64Hex.HexMeans | drivers/189/help.go:46-51 | base16 has two characters a byte, its high and its low four bits, from the alphabet 0 to 9 and a to f |
| JsonMerge.MergeJson | cmd/lang.go:80-96 | in place, for every order of the keys: afterwards the target's dictionaries hold the merge, the source is unchanged, and the report is true if and only if the target is |
| JsonMerge.MergeKey | cmd/lang.go:82-94 | what one key does: a new key is attached and shared, two maps are merged, anything else stays |
| JsonMerge.MergeTreeIsMerge | cmd/lang.go:80-96 | the dictionaries hold the value that merging the two values gives, and are unchanged exactly when the value is |
| JsonMerge.MergePaths | cmd/lang.go:80-96 | the result has a key path if and only if the target has it, or the source has it and no value of the target is in its way; target values stay, new ones are the source's |
| JsonMerge.UnchangedExactlyWhenCovered | cmd/lang.go:80-96 | nothing changes if and only if the target already has every path it may be given |
| JsonMerge.MergeIsIdempotent | cmd/lang.go:80-96 | merging the same source again changes nothing |
| ChunkSplit.SplitFileByPartNum | drivers/115/util.go:458-482 | exact refusals; otherwise that many parts of equal size but for the last, numbered from 1, tiling the file |
| ChunkSplit.SplitFileByPartSize | drivers/115/util.go:486-513 | exact refusals; otherwise as many parts of the given size, but for the last, as tile the file, and at most 10000 |
| ChunkSplit.FallbackFits | drivers/115/util.go:447-452 | when the first part came out small, parts of the least size are few enough |
| ChunkSplit.SplitFile | drivers/115/util.go:433-454 | panics exactly at 9 GB and refuses exactly below 1000 bytes; otherwise 1000 parts for each started gigabyte, or 10000 above 9 GB, of equal size but for the last, unless these were below 100 KB, and then parts of 100 KB; they tile the file, at most 10000 in number |
| Md5Scramble.EncryptMd5 | drivers/baidu_netdisk/util.go:473-488 | each character is the digit eight places on or back with the bits of its own position flipped, the tenth counted from `g`; a short input panics |
| Md5Scramble.DecryptMd5 | drivers/baidu_netdisk/util.go:453-471 | valid hexadecimal is returned as it is; of any scrambled form each digit is found eight places on or back with the same bits flipped again; a result that comes out short panics |
| Md5Scramble.SwapTwice | drivers/baidu_netdisk/util.go:470-474 | the block swap is its own inverse |
| Md5Scramble.XorTwice | drivers/baidu_netdisk/util.go:466 | so is the positional exclusive or |
| Md5Scramble.DigitsMean | drivers/baidu_netdisk/util.go:464-484 | digits are written in lowercase and read in either case |
| Md5Scramble.XorBits | drivers/baidu_netdisk/util.go:466 | every bit of the exclusive or is the sum of the two bits modulo two, for negative numbers as well |
| Md5Scramble.PieceMeans | drivers/baidu_netdisk/util.go:459-466 | any character but the tenth becomes one digit with the bits of its position flipped, a foreign one being read as 0 |
| Md5Scramble.TenthMeans | drivers/baidu_netdisk/util.go:461-466 | the tenth character, of any ASCII text, counts from `g` in either case, and its number has the bits of 9 flipped |
| Md5Scramble.FormatMeans | drivers/baidu_netdisk/util.go:466 | a number is printed in base 16 without leading zeros, in lowercase, a negative one with a sign |
| Md5Scramble.ZerosScrambled | drivers/baidu_netdisk/util.go:453-488 | of the zero MD5 each character is its own position in hexadecimal, the tenth being `p`, and it decrypts to the zero MD5 |
| Md5Scramble.EncryptThenDecrypt | drivers/baidu_netdisk/util.go:453-488 | for every MD5 in either case, the scrambled form is never valid hexadecimal and decrypts to the lowercase MD5; the MD5 itself comes back if and only if it is lowercase |
| Md5Scramble.DecryptThenEncrypt | drivers/baidu_netdisk/util.go:453-488 | every scrambled form is the encryption of what it decrypts to |

## Left out

- AliasPolicy.Get: object masks, provider wrappers and the root object built by `Init` are not modelled; a back end is a lookup that answers the same way throughout one request.
- AliasMove.Move: storage lookups answer the same way throughout one request, and source and destination are two lists.
- AliasMatching.PerformMove: errors of single moves and removals are collected by the program and do not change the walk; they are not modelled.
- AliasQuota.PickByQuota: the one-second limit on collecting free space is an absent report.
- CallbackLimiter.LimiterTable.TryAcquire: one trip round the waiting loop; the time limit and a cancelled context are callers that stop trying. The wrap-around of the 64-bit registration counter is not modelled.
- CallbackReader.OpenRange: what is sent and received, and the random delay between attempts, are the script's answers.
- LinkTree.BuildTree: starts from the lines already split; `parseFileLine` is a parameter that may refuse a line and never yields an empty URL, and time stamps are absent.
- LinkTree.CalSize: totals are unbounded integers, so overflow of 64 bits is not modelled.
- LinkText.PrintThenRead: the program has no printer; the one here indents by two spaces a level, and asks that a file's text is one the line parser reads as that file.
- SliceHash.SliceHashWriter.Write: the digest is an unspecified function, progress callbacks are absent, and a hash never fails to take bytes.
- SliceHash.UploadParts: the part count is computed in floating point by the program, which is exact for the sizes below 2^53; it is an integer division here.
- SliceHash.BothDigests: compares the slice digests; both forms hash the whole file as well.
- BlockUpload.Uploader.Put: assumes that waiting for the group reports an error whenever some block was not accepted; uploads of one pass are applied in list order, which their independence permits. Retries inside one block are part of its fate.
- BlockUpload.SectionIsSlice: the empty file is left out, since its only block asks for a whole slice that is not there.
- ShareRefs.RefsRoundTrip: JSON is an unspecified codec that gives back lists of clean references; it replaces text that is not valid UTF-8.
- ShareMerge.GetMergedFiles: a share's listing request is a parameter.
- JsonMerge.MergeJson: for a target in which no dictionary stands twice and that shares none with the source, as when both were just decoded; a JSON value that is not an object is a text.
- Strings are sequences of characters. Where the program counts bytes (`ShareRefs`, `Md5Scramble`, `Base64Hex`) a character is one byte.
- Requests, logins, signing, real hash functions, clocks and random sources: their answers are parameters.
- `getByPath`, path splitting, part-size ladders, `getAllSort`, `List` and `Link` of the alias driver, the reference counter of `limiter.go`: one-branch facts, or techniques used above already.

# Verification of the replicated FUSE file system

This project models a file system that several FUSE clients share through a primary and a secondary server
speaking Sun RPC, and proves what the replication, the permission checks, the locks, the byte movement, the wire
format and the thread pool of its write test guarantee. `dafny verify dfyconfig.toml` checks everything.

## What is modelled

- `kernel.dfy`: the system calls under a server, as operations on a store of inodes. A name or an open descriptor
  refers to an inode; hard links are two names of one inode; path resolution follows symbolic links and stops
  after 40. The server process is root, so the kernel's own permission checks always pass. These definitions are
  assumptions about the kernel, not claims about it.
- `handlers.dfy`: the permission checks, the mutating handlers, open, release, read, getattr and write of one server,
  as functions. `server.dfy`: the same mutating handlers as methods of a `Server` object with its tree, descriptor table
  and lock table, doing their work in the order of the source: forward, translate the path in a 200-byte buffer,
  check the parent, lock it, call the kernel, unlock, change the owner. Each is proved to compute its function.
- `paths.dfy`, `cleanpaths.dfy`, `identity.dfy`: path translation, parent extraction and the client's numeric
  identity, as loops over buffers and strings with the laws that connect them.
- `renames.dfy`, `copiedwrites.dfy`: which renames change a tree and what they do to its names; what a write and its
  forwarded copy do to the files.
- `agreement.dfy`, `idempotence.dfy`, `duplicates.dfy`, `replication.dfy`, `durability.dfy`: two servers with the same
  tree, duplicate delivery, the cluster as a step machine, and what holds in every state it can reach. A step is an arrival, a lost
  or delivered or duplicated forward, the primary's own execution, an answer, a crash of either machine at any point, a
  crash that leaves an arbitrary tree on the secondary, a restart, or a cold restoration. The fields `late`, `harmless`,
  `clean`, `intact` and `log` are history: the servers do not know them (the flag that says that the secondary was
  not reached is a local variable).
- `failover.dfy`: runs in which the machines and the network do their part: every forward delivered, perhaps more than
  once, the primary crashed at the end, and the survivor serving on; and what a duplicate, a torn tree or a restoration
  does there.
- `permissions.dfy`, `creations.dfy`, `outcomes.dfy`: what each handler does, said apart from its body: who passes, in
  octal digits; when the answer is 0 and what it is otherwise; what is there afterwards, byte by byte for contents,
  and that nothing else changes. `resolution.dfy` says the same of path resolution.
- `rootdir.dfy`, `locks.dfy`, `exclusion.dfy`: deletion in the shared directory `/DFS`, the directory locks of one
  server process, and that the directory locked is the one that changes.
- `bytemove.dfy`: the client's read and write loops against a server that answers short, and directory listings in one
  fixed buffer.
- `xdr.dfy`, `messages.dfy`, `xdrstream.dfy`, `rpc.dfy`: XDR (RFC 4506, sections 4.1, 4.2, 4.9, 4.11 and 4.14), the
  fields of all 46 messages, the in-memory stream on which one piece of code encodes and decodes, the inline fast
  path, the stubs and the dispatch. A generated filter is the list of its fields, and a run of IXDR_PUT or IXDR_GET is a
  loop over that list.
- `requests.dfy`, `calls.dfy`: the requests and replies of `handlers.dfy` as procedures, values and bytes, and the
  handlers run behind the dispatch on what they decode.
- `threadpool.dfy`, `progress.dfy`: the thread pool as interleaved atomic steps of any number of workers, callers and the destructor,
  the class whose methods take those steps, and the progress of whatever is submitted.

## Where the code does less than its documents say

Properties that are false of the code are stated with the exact condition under which they hold, or with a
concrete case in which they fail.

- The repository's README (line 83) says that only the owner may delete or rename an entry of `/DFS`. The code
  checks the owner for unlink and rmdir only: `RootDirectory.AnybodyRenames`, `Renames.RenameTakesIff`.
- The same README (line 82) says that `chown` needs root. The server's handler checks nothing; the refusal is made by the
  client, which is not part of this model: `Handlers.AnybodyTakesOwnership`.
- Through a symbolic link to `/DFS` anybody may delete an entry of it: `RootDirectory.AliasedDeletion`, and exactly
  `RootDirectory.DeletionIff`.
- A forwarded mutation that arrives twice has the effect of one, except some renames of a symbolic link onto a symbolic
  link that the way to their own source leads through: `Idempotence.ApplyTwice`, `Duplicates.ApplyTwiceIff`,
  `Idempotence.RenameTwiceExample`.
- An open is not forwarded, so one with O_TRUNC empties the primary's file only: `Durability.OpenDivergesIff`.
- A copied write opens its file with flags 33793, which contain O_APPEND, so the copy appends where the primary
  writes at an offset: `CopiedWrites.CopiedWriteAgreesIff`, `CopiedWrites.FullWriteAgreesIff`.
- An acknowledged mutation whose forward was lost dies with the primary: `Durability.MissedForwardIsLost`.
- A rename whose second parent passes the permission check but is no directory returns with the first parent locked, and
  the next request for that directory waits for ever: `Locks.BalancedIff`, `Locks.LeakThenWait`, `Locks.LeakExample`.
- The comment at the head of the server (fuse_rpc_server.c:21-25) promises an exclusive lock for every mutation of a
  directory. symlink and link take none: `Exclusion.LinksIgnoreLocks`; for the others it is so:
  `Exclusion.LocksWhatItChanges`.
- The write loop computes its requests from one reply instead of the total, so a second short reply spoils it: the file
  lacks its last byte unless it was there before, or the loop never finishes: `ByteMovement.WriteLoopIff`,
  `ByteMovement.FullThirdReplyOvershoots`.
- A call of the read or write loop that fails in the transport is only logged, and the loop goes on with a stale reply:
  `ByteMovement.LostCallPasses`.
- A listing of 4097 bytes loses its last terminator: `ByteMovement.ListingRoundTripIff`.
- A `long` or `unsigned long` outside 32 bits is refused by the field-by-field filter and cut by the inline one, and
  with a C library whose IXDR_GET_LONG does not extend the sign a negative time is decoded differently by the two:
  `Xdr.FastPutIsEncodeIff`, `Xdr.FastGetIsDecodeIff`.
- The destructor of the thread pool sets its flag without the mutex and can wait for ever:
  `ThreadPools.JoinReturnsIff`, `ThreadPools.JoinCanHang`.

## Model

| member | source | states |
|---|---|---|
| Paths.TranslateAbspath | fuse_rpc_server.c:241-256 | the 200-byte buffer ends up holding "/DFS" for "/", else "/DFS" plus the path with exactly one slash put in front if it has none, followed by NULs only |
| Paths.GetLastSlash | fuse_rpc_server.c:132-142 | the scan finds the last slash, or -1 |
| Paths.GetParentPath | fuse_rpc_server.c:144-149 | the buffer ends up holding what precedes the last slash, and NULs |
| Paths.LastSlashBeforeName | fuse_rpc_server.c:132-149 | the last slash of directory/name is the one before a slash-free name |
| Paths.ParentCommutes | fuse_rpc_server.c:144-149 | the parent of a translated child path is the translated directory, and directory, slash and name rebuild the full path |
| Paths.ParentIsRootIff | fuse_rpc_server.c:273-283 | the parent is "/DFS" exactly for top-level client paths |
| Paths.TranslateInjectiveIff | fuse_rpc_server.c:241-256 | two client paths become one server path exactly when they differ by an optional leading slash, so translation is injective on paths that start with one |
| CleanPaths.SplitTranslate | fuse_rpc_server.c:241-256 | a translated clean path is resolved through exactly its own names below DFS |
| CleanPaths.CleanParent | fuse_rpc_server.c:144-149 | the parent string of a clean path is the translation of the clean parent |
| CleanPaths.CleanInjective | fuse_rpc_server.c:241-256 | distinct clean paths are distinct on the server |
| CleanPaths.LocateClean | fuse_rpc_server.c:241-256 | without links among its ancestors a clean path denotes its canonical entry |
| Identity.IpToInt | tweakfs.c:88-100 | the loop computes the fold of the address string in 32-bit arithmetic |
| Identity.QuadValue | tweakfs.c:88-100 | for every dotted quad a.b.c.d the result is a*65536+b*256+c below 2^24; the last octet is never folded in |
| Identity.AtoiDecimal | tweakfs.c:131-136 | printing with "%u" and reading with atoi is exact for every number |
| Identity.OwnerValue | fuse_rpc_server.c:172-182 | the user id a server derives from a client's address is a*65536+b*256+c |
| Identity.SameOwnerIff | fuse_rpc_server.c:172-182 | two clients count as one owner exactly when their first three octets agree |
| Kernel.AppendIsPWriteIff | fuse_rpc_server.c:931-938 | an append equals a write at an offset exactly when it is empty or the offset is the file size |
| Agreement.WalkAgree | fuse_rpc_server.c:211-229 | on two agreeing trees every path resolves alike, links included |
| Agreement.ChecksAgree | fuse_rpc_server.c:172-298 | on two agreeing trees all permission checks and lock attempts come out alike for the same ip |
| Agreement.RenameAgree | fuse_rpc_server.c:542-545 | rename on two agreeing trees gives the same error or agreeing trees |
| Agreement.ApplyAgree | fuse_rpc_server.c:377-820 | every path mutation takes the same decision, returns the same value and keeps two trees in agreement |
| Agreement.ServeSame | fuse_rpc_server.c:377-956 | every request of any kind gets the same reply from two servers a client cannot tell apart, and keeps them so |
| CopiedWrites.CopiedWriteAgreesIff | fuse_rpc_server.c:913-956 | for every write, through whatever descriptor and path and however much either kernel takes, original and copy leave agreeing trees exactly when both change the same named file to the same contents, or neither changes one |
| CopiedWrites.OriginalsAgreeIff | fuse_rpc_server.c:938-938 | how much the kernel takes of the original shows exactly in its effect on a named file |
| CopiedWrites.FullWriteAgreesIff | fuse_rpc_server.c:923-938 | when the path names the open file and both writes are complete, the replies are the same, and the trees agree exactly when the primary's descriptor appends too, nothing is written, or the offset is the file size |
| Idempotence.WalkExtends | fuse_rpc_server.c:377-404 | what resolved before a creation resolves to the same afterwards |
| Idempotence.MkdirSettles | fuse_rpc_server.c:377-404 | a second mkdir, with its checks and change of owner, changes nothing |
| Idempotence.MknodSettles | fuse_rpc_server.c:642-702 | a second mknod changes nothing |
| Idempotence.SymlinkSettles | fuse_rpc_server.c:556-582 | a second symlink changes nothing |
| Idempotence.HardLinkSettles | fuse_rpc_server.c:584-614 | a second link changes nothing |
| Idempotence.RemovalSettles | fuse_rpc_server.c:726-744 | a second unlink or rmdir changes nothing |
| Idempotence.AttributeSettles | fuse_rpc_server.c:704-724 | a second truncate, utime, chmod or chown changes nothing |
| Idempotence.WalkAcrossMove | fuse_rpc_server.c:542-545 | a walk that ends in a directory before and after a move ends in the same one, unless it follows a link that the move replaces by another link |
| Idempotence.SourceGone | fuse_rpc_server.c:542-545 | after a move the source path leads to no entry, unless the way there leads through a link replaced by a link |
| Idempotence.RenameSettles | fuse_rpc_server.c:515-554 | a second rename changes nothing under that condition |
| Idempotence.ApplyTwice | fuse_rpc_server.c:377-820 | a forwarded path mutation executed twice leaves the tree of one execution, unless it renames a link onto a link that the way to its own source leads through |
| Idempotence.CleanRenameIsSafe | fuse_rpc_server.c:515-554 | every rename from a clean path without links on its way may arrive twice, links over links included |
| Duplicates.WalkAfterIs | fuse_rpc_server.c:542-545 | after a link is moved onto a link, every path resolves as the walk over the old tree with that one link retargeted says |
| Duplicates.MovesAgainIff | fuse_rpc_server.c:515-554 | the second rename is permitted and moves an entry exactly when the old tree, so read, says so |
| Duplicates.ApplyTwiceIff | fuse_rpc_server.c:377-820 | a duplicate changes the tree exactly when the first rename moved a link onto a link on the way to its source and, read over the tree before it, the two paths again name an entry and a permitted place for it |
| Idempotence.RenameTwiceDiffers | fuse_rpc_server.c:515-554 | for links over links it does not: a family of trees in which the second rename moves another entry |
| Idempotence.RenameTwiceExample | fuse_rpc_server.c:515-554 | such a tree and request |
| Idempotence.WriteCopyTwiceIff | fuse_rpc_server.c:923-938 | a copied write may arrive twice exactly when it appends nothing |
| Replication.RepeatIsStable | fuse_rpc_server.c:57-85 | once a copy that is harmless in the exact sense above has been executed, no further copy of it changes the tree |
| Replication.CopyAgreesIff | fuse_rpc_server.c:70-73 | the copy on the secondary and the original on the primary end in agreeing trees, always for path mutations, and for writes exactly when their effects are the same |
| Replication.WithoutHandles | tweakfs.c:62-82 | a server without open descriptors looks to clients like a restarted one with the same tree |
| Permissions.MayIff | fuse_rpc_server.c:184-209 | with the mode written in octal, read, write and execute are 4, 2 and 1 of the owner's digit for the owner and of the last digit for everybody else; the group's digit plays no part |
| Permissions.MayAllIff | fuse_rpc_server.c:286-297 | all three rights exactly when that digit is 7 |
| Permissions.DeniedInRootIff | fuse_rpc_server.c:258-283 | below "/DFS" itself the check fails exactly for rmdir or unlink of an entry that is there and belongs to somebody else |
| Permissions.DeniedByDigit | fuse_rpc_server.c:273-298 | elsewhere it passes exactly when lstat finds the parent and the caller's digit there is 7 |
| Permissions.OpIsValidByDigit | fuse_rpc_server.c:184-209 | the check of an open is 1 exactly when the caller's digit holds every right asked for, and else 0 |
| Permissions.OwnerMayCreate | fuse_rpc_server.c:273-298 | in a directory of mode 0755 the owner may create and nobody else |
| Creations.CreatedIs | fuse_rpc_server.c:151-159 | a creation and its change of owner answer 0 exactly when the place is free, and leave an entry of its own inode that belongs to the caller |
| Creations.MkdirOutcome | fuse_rpc_server.c:377-404 | mkdir answers 0 exactly when the parent lets the caller in, opens, and the place is free; then there is an empty directory of the mode asked for, owned by the caller, and nothing else changed; else -EACCES or -1 and nothing changed |
| Creations.MknodOutcome | fuse_rpc_server.c:642-702 | the same for mknod, with the kinds of file its mode can ask for |
| Creations.SymlinkOutcome | fuse_rpc_server.c:556-582 | the same for symlink: the link holds the target as it was sent and belongs to the caller |
| Creations.LinkOutcome | fuse_rpc_server.c:584-614 | link gives the source's inode one more name, and the inode, under all its names, to the caller, unless it is a symbolic link |
| Outcomes.RemovalOutcome | fuse_rpc_server.c:406-427 | rmdir and unlink answer 0 exactly when the caller is let in and the entry is there and of the right kind; then that name is gone and nothing else |
| Outcomes.MkdirThenRmdir | fuse_rpc_server.c:377-427 | anybody may make a directory in /DFS; it belongs to its maker, who can remove it and leaves the tree as it was; everybody else is answered -EACCES |
| Outcomes.RenameOutcome | fuse_rpc_server.c:515-554 | rename answers 0 exactly when it moves an entry or both paths name one object already; after a move everything at and below the source stands at and below the target with its old inodes, and nothing else is touched |
| Outcomes.TruncateOutcome | fuse_rpc_server.c:704-724 | for everybody: the file is cut, or filled up with zeros, to the size; or -errno and nothing changed |
| Outcomes.ChmodOutcome | fuse_rpc_server.c:774-797 | for the owner of what lstat finds: the mode of what the path leads to is the one sent, and nothing else changed |
| Outcomes.UtimeOutcome | fuse_rpc_server.c:746-772 | for the owner of what lstat finds; the tree stays |
| Outcomes.ChownOutcome | fuse_rpc_server.c:799-821 | for everybody: owner and group become the ones sent, 0xffffffff meaning no change |
| Outcomes.WriteOutcome | fuse_rpc_server.c:913-956 | a client's write puts the bytes of its buffer, one by one, at the offset or at the end of a file opened for appending, keeps all others, fills a gap with zeros and answers how many; or -EBADF or -ESPIPE |
| Outcomes.CopyOutcome | fuse_rpc_server.c:923-955 | a forwarded write puts them behind the end of the file its path leads to |
| Outcomes.ReadOutcome | fuse_rpc_server.c:882-907 | a read answers the bytes from its offset on, as many as are asked for, there, and given |
| Outcomes.OpenOutcome | fuse_rpc_server.c:823-862 | an open answers a new descriptor exactly when the rights its flags need are there; the descriptor leads to the file with that mode, and only O_TRUNC changes the file |
| Outcomes.ReleaseOutcome | fuse_rpc_server.c:865-880 | a release takes the one descriptor away |
| Outcomes.GetattrOutcome | fuse_rpc_server.c:330-361 | getattr answers the entry's own attributes, links not followed, or -errno |
| Durability.DeliverPaired | fuse_rpc_server.c:66-81 | the secondary's execution of a forwarded copy puts it ahead by exactly that mutation, or it is known to have diverged |
| Durability.ExecutePaired | fuse_rpc_server.c:57-85 | the primary's own execution, whatever became of the forward, brings the two level again, or they are known to have diverged |
| Durability.RestorePrimaryPaired | rsync.py:9-14 | after a cold restoration of the primary the two trees agree again |
| Durability.OpenDivergesIff | fuse_rpc_server.c:823-862 | a request that is not forwarded takes the two trees apart exactly when it is an open with O_TRUNC of a file that is not empty |
| Durability.CrashPrimaryRefines | tweakfs.c:62-82 | a crash of the primary at any point leaves the survivor of a pair in pace with the whole history |
| Durability.StepKeeps | fuse_rpc_server.c:57-85 | every step of the cluster keeps the invariant |
| Durability.RunKeeps | fuse_rpc_server.c:57-85 | so does every finite sequence of steps |
| Durability.SecondaryKeepsPace | fuse_rpc_server.c:57-85 | in every reachable state with the primary up and a secondary that has missed nothing since the last restoration, its tree is the primary's or ahead of it by exactly the one mutation in flight, whatever happened before |
| Durability.HistoryKept | fuse_rpc_server.c:57-85 | no step takes an entry out of the history |
| Durability.NothingAcknowledgedIsLost | tweakfs.c:62-82 | the server clients use is indistinguishable from one server that executed the logged requests with the logged replies, and every request answered earlier is still in that log, across crashes and failover, unless clients were switched to a secondary that had missed something, or the survivor executed a harmful duplicate or was torn by a crash |
| Durability.AnewHolds | tweakfs.c:62-82 | a pair with the primary up and idle is as good as a new one, whatever happened before |
| Durability.DurableAnew | tweakfs.c:62-82 | from any such moment of any run, above all after a cold restoration, the same guarantee holds anew for all that is served later |
| Durability.PrimaryAloneIsIntact | fuse_rpc_server.c:57-85 | while the primary stays up no behaviour of the secondary breaks that hypothesis |
| Durability.MissedForwardIsLost | fuse_rpc_server.c:62-67 | why the hypothesis is needed: an acknowledged mutation whose forward failed, and a survivor that agrees with its result only if the mutation had none |
| Failover.RoundKeepsWell | fuse_rpc_server.c:57-85 | one request that arrives, is copied, duplicated any number of times, executed and answered is a possible run; it leaves a pair that is well one answer later, the primary as one server is, and the secondary with the copy executed |
| Failover.RoundsKeepWell | fuse_rpc_server.c:57-85 | so does every sequence of such requests, if no write copies differently, no open wipes a file and no duplicate does harm |
| Failover.FailoverKeepsEverything | tweakfs.c:62-82 | after any such sequence and a crash of the primary nothing is lost: the log is one server's answers, the survivor holds that server's tree, and it serves and answers everything later as that server would without its descriptors |
| Failover.OneMutationSurvives | fuse_rpc_server.c:70-73 | every path mutation that was answered is on the survivor of a crash right after |
| Failover.DuplicateSurvivesIff | fuse_rpc_server.c:57-85 | if its copy arrives twice, the survivor has it exactly when the duplicate is harmless, which the tree before it tells |
| Failover.RestorationHeals | rsync.py:9-14 | a cold restoration of either machine is possible when the other is up and makes the pair well |
| Failover.SecondaryComesBack | fuse_rpc_server.c:57-67 | a secondary that crashes and restarts between requests has its tree and has missed nothing |
| Failover.TornSecondary | fuse_rpc_server.c:57-67 | one torn by its crash has whatever tree that left and counts as out of date; clients of the primary see nothing of it |
| Failover.TransmittedIsDelivered | fuse_rpc_server.c:57-85 | what the forwarding macro makes of the peer, delivered any number of times, is the copy step of the cluster, for balanced and harmless requests |
| Renames.RenameChangesIff | fuse_rpc_server.c:515-554 | a rename changes the tree exactly when it is permitted, gets its locks and finds an entry to move |
| Renames.RenameTakesIff | fuse_rpc_server.c:515-554 | a rename takes an entry away exactly when it moves something and its source leads to the entry or above it, and replaces the entry exactly when its target leads there; the owner plays no part |
| RootDirectory.DeletionIff | fuse_rpc_server.c:273-298 | the exact case for rmdir and unlink of any entry by any path: it leads there, the entry is removable, the parent opens, and the owner asks if the parent string is "/DFS", else what lstat finds at the parent has rwx |
| RootDirectory.RootDeletionNeedsOwner | fuse_rpc_server.c:259-298 | a deletion below "/DFS" comes from the owner, although a failing lstat counts as permission |
| RootDirectory.DirectDeletionNeedsOwner | fuse_rpc_server.c:273-298 | through a direct path an entry /DFS/n is deleted only as /n and by its owner |
| RootDirectory.RootEntryLostOnlyIf | fuse_rpc_server.c:726-744 | over any sequence of direct requests an entry of /DFS that is gone was there up to one of them and gone after it, and that one is a deletion by its then owner or a rename whose source is the entry or a directory above it |
| RootDirectory.AnybodyRenames | fuse_rpc_server.c:278-291 | whoever asks, a rename of /n to /m takes /DFS/n away and overwrites /DFS/m, whoever owns them |
| RootDirectory.AliasedDeletion | fuse_rpc_server.c:273-298 | through a link to /DFS anybody deletes anybody's file there |
| Handlers.AnybodyTakesOwnership | fuse_rpc_server.c:799-821 | chown on the server does the same for every caller, and gives the file to whomever it names |
| Locks.BalancedIff | fuse_rpc_server.c:528-551 | a mutation that starts without locks ends answered and without locks exactly when it is no rename whose second parent passes the check but cannot be opened, or is the first one by another name |
| Locks.LocksBalanceOverRuns | fuse_rpc_server.c:93-107 | from a state without locks in which directories have one name, over any sequence of requests whose renames use clean paths without links and open their second parent if it passes the check, no lock is left behind, the server never waits for its own lock, and directories still have one name |
| Locks.LeakThenWait | fuse_rpc_server.c:536-541 | the lock left by an unbalanced rename makes the next request on that directory wait for ever |
| Locks.LeakExample | fuse_rpc_server.c:536-541 | with a file whose bits are all set as second parent, anybody's rename in /DFS leaves /DFS locked and the next mkdir there waits for ever |
| Locks.PerformIsServe | fuse_rpc_server.c:211-239 | balanced requests have the outcome of the server without locks |
| Locks.CleanRenameBalanced | fuse_rpc_server.c:536-541 | renames between clean parents without links that open if they pass the check are balanced: different strings are different directories |
| Locks.OrdinaryCall | fuse_rpc_server.c:377-956 | one such request, or a write, is answered, leaves no lock and keeps directories single-named |
| Locks.ApplyKeepsNames | fuse_rpc_server.c:377-820 | every path mutation keeps directories single-named, so the hypothesis above lasts |
| Exclusion.ParentIsDirectory | fuse_rpc_server.c:87-104 | the directory opened for the lock is the one whose entry the path names |
| Exclusion.ParentOpens | fuse_rpc_server.c:211-229 | a path that names a place in a directory has a parent that opens |
| Exclusion.LocksWhatItChanges | fuse_rpc_server.c:87-104 | mkdir, rmdir, mknod, unlink and rename, when they change the tree, lock exactly the directories in which they change an entry |
| Exclusion.HeldIsUnchanged | fuse_rpc_server.c:211-229 | so while a directory is locked none of them changes an entry of it |
| Exclusion.LinksIgnoreLocks | fuse_rpc_server.c:556-614 | symlink and link do, whoever holds the lock |
| Servers.ConnectServer | tweakfs.c:62-82 | a client gets the primary if it answers, else the secondary; its requests are executed as originals and forwarded exactly on the primary |
| Servers.Server.Transmit | fuse_rpc_server.c:57-85 | the peer executes the request as a copy as often as the network delivers it, and nobody else's state changes |
| Servers.Server.Handle | fuse_rpc_server.c:57-85 | one request changes this server as its handler does, whatever the peer does, and the peer only by copies; a copy reaches no further server |
| Servers.Server.Dlock | fuse_rpc_server.c:211-229 | locks a directory that opens, waits if this process holds it, else answers a negative descriptor |
| Servers.Server.EnterParent | fuse_rpc_server.c:87-114 | the shared beginning of the locking handlers: denied, waiting, not opened, or the parent locked |
| Servers.Server.Mkdir | fuse_rpc_server.c:377-404 | the handler computes reply, tree and locks of its specification, the change of owner after the unlock included |
| Servers.Server.Rmdir | fuse_rpc_server.c:406-427 | the same for rmdir |
| Servers.Server.Unlink | fuse_rpc_server.c:726-744 | the same for unlink |
| Servers.Server.Mknod | fuse_rpc_server.c:642-702 | the same for mknod and its three branches |
| Servers.Server.Rename | fuse_rpc_server.c:515-554 | the same for rename, with both checks before the first lock |
| Servers.Server.LockBoth | fuse_rpc_server.c:533-541 | which locks rename holds, and which it leaves behind, in every case |
| Servers.Server.MakeSymlink | fuse_rpc_server.c:556-582 | the same for symlink, which takes no lock and changes the owner of the link itself |
| Servers.Server.ChangeLinkOwner | fuse_rpc_server.c:161-170 | changes the owner of the link itself, or answers -1 and changes nothing |
| Servers.Server.HardLink | fuse_rpc_server.c:584-614 | the same for link, with both checks |
| Servers.Server.Truncate | fuse_rpc_server.c:704-724 | the same for truncate, which checks nothing and answers -errno |
| Servers.Server.Utime | fuse_rpc_server.c:746-772 | the same for utime, owners only |
| Servers.Server.Chmod | fuse_rpc_server.c:774-797 | the same for chmod, owners only |
| Servers.Server.Chown | fuse_rpc_server.c:799-821 | the same for chown, which checks nothing |
| Servers.Server.Write | fuse_rpc_server.c:913-956 | the same for write: through the descriptor, or for a copy through the path |
| ThreadPools.UpdateHeading | test/threadpool.h:27-35 | one worker's move changes the number of workers on their way by what that worker was and is |
| ThreadPools.WakeupKept | test/threadpool.h:27-51 | every step keeps: while somebody sleeps, queued tasks number at most the workers on their way, plus a notification about to be sent |
| ThreadPools.OrderKept | test/threadpool.h:30-34 | every step keeps: started tasks followed by queued tasks are the submissions |
| ThreadPools.AccountedKept | test/threadpool.h:30-34 | every step keeps: the started tasks are the running and the finished ones, each once |
| ThreadPools.RunKeeps | test/threadpool.h:22-62 | all invariants hold after every schedule, spurious wakeups included |
| ThreadPools.NoWakeupIsLost | test/threadpool.h:48-51 | in every reachable state sleeping workers leave no task without a worker on its way |
| ThreadPools.SomebodyComes | test/threadpool.h:27-35 | with at least one worker, a queued task always has a worker that is not asleep |
| ThreadPools.FrontIsThere | test/threadpool.h:31-32 | front is never called on an empty queue |
| ThreadPools.StartedInOrder | test/threadpool.h:30-34 | tasks start in order of submission, each at most once |
| ThreadPools.AllRunWhenJoined | test/threadpool.h:55-62 | when all joins have returned the queue is empty and every submission has been executed exactly once |
| ThreadPools.NeverSleepAgain | test/threadpool.h:55-57 | once stop is set and nobody waits, nobody sleeps again |
| ThreadPools.NotifyAllMissesIff | test/threadpool.h:56-57 | notify_all misses exactly the workers between their test and their sleep |
| ThreadPools.OnlySpuriousWakes | test/threadpool.h:55-62 | a worker asleep after notify_all is moved by a spurious wakeup only |
| ThreadPools.StepDescends | test/threadpool.h:27-35 | after notify_all every step but a spurious wakeup brings the pool closer to its end |
| ThreadPools.EndedIff | test/threadpool.h:55-62 | nothing but spurious wakeups can happen exactly when every worker has gone or sleeps and nobody is inside execute: there is no deadlock |
| ThreadPools.JoinReturnsIff | test/threadpool.h:55-62 | every schedule ends with all workers gone, so that all joins return, exactly when at notify_all no worker is between a failed test and its sleep; the schedules are finite |
| ThreadPools.JoinCanHang | test/threadpool.h:55-62 | a schedule that ends in the destructor waiting for a sleeping worker |
| Progress.WorkDescends | test/threadpool.h:27-35 | before and after the stop flag, every step of threads at work uses up a measure |
| Progress.QuietIsDone | test/threadpool.h:27-53 | when the threads come to rest the queue is empty and every submission has run exactly once |
| Progress.EveryTaskRuns | test/threadpool.h:22-62 | after any schedule the threads come to rest within a bounded number of steps however they are scheduled, they can, and then every task submitted has run, even if the destructor hangs |
| ThreadPools.ThreadPool.constructor | test/threadpool.h:22-39 | all workers start at the lock of an empty pool |
| ThreadPools.ThreadPool.Work | test/threadpool.h:27-35 | each pass of the worker loop is an enabled step of the machine |
| ThreadPools.ThreadPool.Execute | test/threadpool.h:42-53 | execute is the step sequence lock, emplace, notify_one, unlock and queues its task last |
| ThreadPools.ThreadPool.WakeEverybody | test/threadpool.h:57-57 | notify_all wakes every sleeper and nobody else |
| ByteMovement.BbRead | tweakfs.c:743-790 | for every file, offset, size and pattern of calls: if all are answered and none with a negative ret, the result is min(size, bytes after the offset), the buffer holds that slice and nothing beyond 4096 bytes behind it changes; -1 comes exactly from a negative ret; the result is undefined exactly when the first call fails in the transport; no request exceeds 4096 bytes |
| ByteMovement.CopyReply | tweakfs.c:780-785 | each round overwrites 4096 bytes from the cursor, however short the reply |
| ByteMovement.ReadReplyFor | fuse_rpc_server.c:882-907 | a read reply is a zero-filled buffer that starts with the file's bytes, and is empty exactly at the end of the file or for size 0 |
| ByteMovement.PWriteSplit | fuse_rpc_server.c:938-938 | two adjoining writes are one |
| ByteMovement.BbWrite | tweakfs.c:802-856 | against any sequence of answers, refusals and transport failures the loop ends, or goes on, as specified round by round; with at most one short reply behind any empty ones it returns the size, with the file as after one write of all the data |
| ByteMovement.OneShortIsRight | tweakfs.c:843-853 | any number of empty replies and then at most one short one: the loop finishes with the complete write |
| ByteMovement.SecondShortNeverCompletes | tweakfs.c:849-853 | after a second short reply, or an empty one behind a short one, no further replies make the loop finish with the last byte in place, unless the file had it before |
| ByteMovement.WritesAllIff | tweakfs.c:843-853 | for a file that does not have the last byte already, extended or overwritten, the loop finishes with the file as after one write exactly when it is short at most once |
| ByteMovement.WriteLoopIff | tweakfs.c:843-853 | the loop writes all the data, whatever a file of a given length holds, exactly when it is short at most once |
| ByteMovement.LostCallPasses | tweakfs.c:831-847 | a call that fails in the transport can pass for an answer: the loop reports success with half of the data missing |
| ByteMovement.FullThirdReplyOvershoots | tweakfs.c:849-853 | if the third request, which asks for too much, is served in full, the loop never finishes |
| ByteMovement.PackEntries | fuse_rpc_server.c:474-488 | the server's buffer is the names with their terminators, cut or zero-filled to 4096 bytes, and count is their number |
| ByteMovement.UnpackPacked | tweakfs.c:1092-1103 | reading names off a buffer gives them back unless the last terminator is missing |
| ByteMovement.ListingRoundTripIff | fuse_rpc_server.c:474-488 | a listing comes back exactly when names and terminators fit 4096 bytes; with one byte more the client leaves the buffer |
| ByteMovement.UnpackEntries | tweakfs.c:1092-1103 | the client's loop hands over the names in order, and stops with -ENOMEM when the filler refuses |
| Xdr.EncodeField | fuse_rpc_xdr.c:8-842 | a library filter refuses a value exactly when 32 bits or a length word cannot carry it, and otherwise writes whole words |
| Xdr.FieldRoundTrip | fuse_rpc_xdr.c:8-842 | reading back what a library filter wrote gives the value and stops right behind it |
| Xdr.BigEndian | fuse_rpc_xdr.c:8-842 | a word is its four bytes with the most significant first, both ways (RFC 4506, section 4.1) |
| Xdr.NegativeWord | fuse_rpc_xdr.c:8-842 | negative numbers travel in two's complement |
| Xdr.StringLayout | fuse_rpc_xdr.c:8-842 | a string is its length, its bytes, and up to three zeros (RFC 4506, section 4.11) |
| Xdr.EncodesIff | fuse_rpc_xdr.c:8-842 | a message is refused exactly when one of its fields is, and fills whole words |
| Xdr.RoundTrip | fuse_rpc_xdr.c:8-842 | for any message, whatever precedes and follows it, decoding gives back the values and leaves exactly the rest |
| Xdr.PrefixFree | fuse_rpc_xdr.c:8-842 | no bytes after a message can make it read as another one |
| Xdr.DecodedIsInRange | fuse_rpc_xdr.c:8-842 | whatever decodes is a value of the message's type that would be encoded again |
| Xdr.FastPutIsEncodeIff | fuse_rpc_xdr.c:62-109 | the inline encoding is the field-by-field one exactly when no long is cut, and otherwise the latter refuses |
| Xdr.FastGetIsDecodeIff | fuse_rpc_xdr.c:110-158 | the inline decoding gives the same fields and the same cursor exactly when every word widens as the filter widens it |
| Messages.EitherWayEncodes | fuse_rpc_xdr.c:726-778 | for the two inline messages both encodings are the same bytes exactly for values that fit 32 bits |
| Messages.MessageRoundTrip | fuse_rpc_xdr.c:57-158 | all 46 messages cross the wire whichever way either side codes the inline ones |
| Messages.CopyOnTheWire | fuse_rpc_server.c:70-73 | clearing is_master changes one word of a forwarded request on the wire and nothing else |
| XdrStreams.XdrStream.PutOpaque | fuse_rpc_xdr.c:681-701 | the bytes and zero padding to a whole word, or failure when the buffer is full |
| XdrStreams.XdrStream.GetOpaque | fuse_rpc_xdr.c:666-679 | the bytes, padding skipped whatever it is, or failure |
| XdrStreams.XdrStream.Field | fuse_rpc_xdr.c:8-842 | one filter in the direction of the stream computes the encoding or decoding of its field |
| XdrStreams.XdrStream.Struct | fuse_rpc_xdr.c:681-701 | a generated filter leaves at the first field that fails, and otherwise appends the message's encoding, or reads it and stops behind it |
| XdrStreams.XdrStream.PutInline | fuse_rpc_xdr.c:93-108 | the run of IXDR_PUTs stores the low 32 bits of each field and touches nothing else |
| XdrStreams.XdrStream.GetInline | fuse_rpc_xdr.c:141-156 | the run of IXDR_GETs reads one word per field |
| XdrStreams.XdrStream.Run | fuse_rpc_xdr.c:726-815 | a filter with a fast path takes it exactly when the stream gives a pointer, and computes the specified encoding or decoding either way |
| Rpc.StubsMeetDispatch | fuse_rpc_svc.c:76-217 | every stub's number selects its own handler with the same two filters |
| Rpc.UnknownNumberIff | fuse_rpc_svc.c:215-217 | the switch knows the 23 numbers of the stubs and no others |
| Rpc.NumbersAre | fuse_rpc.h:346-412 | the procedure numbers are the places in the interface, at both ends |
| Rpc.ServedIs | fuse_rpc_svc.c:219-224 | the server hands the stub's arguments, as they were, to the stub's handler |
| Rpc.CallIsTransparent | fuse_rpc_clnt.c:12-217 | for all 23 procedures and all values in range a call over the wire has the result and the server state of calling the handler, whichever way the ends code inline messages |
| Rpc.OutOfRange | fuse_rpc_svc.c:219-227 | out of range nothing is sent, or the operation is done and its caller gets an error |
| Rpc.OnlyHandlersChangeState | fuse_rpc_svc.c:215-223 | an unknown number or undecodable arguments change no state, and nothing but a handler on its decoded arguments does |
| Requests.FieldsComeBack | fuse_rpc_server.c:330-956 | what the handler takes from the values a client filled in is the request and the sender's identity |
| Requests.RequestOnWire | fuse_rpc_xdr.c:43-722 | every request in range is, on the wire, exactly the bytes written down for it: address, identity, paths and numbers in the order of the filters |
| Requests.SameBytesSameRequest | fuse_rpc_xdr.c:43-722 | two requests of one procedure with the same bytes, whatever follows, are the same request from the same kind of sender |
| Calls.ReplyComesBack | tweakfs.c:245-269 | what the client makes of a result is what the handler answered, for all of memory the handler did not set |
| Calls.AttributesOnWire | fuse_rpc_xdr.c:57-109 | where mode, owner, group, size and ret stand in the 56 bytes of a getattr reply, inline or not |
| Calls.AnswerOnWire | fuse_rpc_xdr.c:225-722 | the bytes of every other answer |
| Calls.RepliesTake | fuse_rpc_xdr.c:29-842 | how many bytes each of the 23 replies takes |
| Calls.AnswerFits | fuse_rpc_server.c:330-956 | a server whose files have numbers in range answers requests in range with replies in range |
| Calls.RemoteIsLocal | fuse_rpc_clnt.c:12-217 | for every modelled request in range a call over the wire leaves the server as the handler leaves it and gives the client the handler's answer |
| Rpc.SendReply | fuse_rpc_svc.c:224-226 | the reply is the encoded result, or a system error when a field or the buffer refuses it |
| Rpc.RpcService.Compute6 | fuse_rpc_svc.c:76-236 | select, decode, call, encode: the method's reply and new state are those of the specification |

## Left out

- FUSE callbacks that only pass arguments on, option parsing, hostname lookup, logging, the rpcgen sample `fuse_rpc_client.c`, `test/test_concurrent_write.cc`, and the handlers of init_rootdir, access, opendir, releasedir, readlink and statfs: no hard claim.
- Open, release, read and getattr are modelled on values in `handlers.dfy`, not as methods of the server object; the update of its descriptor table in place is not shown there.
- Kernel details: trailing slashes are ignored in resolution, the umask is 0, timestamps are not kept (so utime changes nothing that is modelled), chown clears no mode bits, fifos and devices are entries without behaviour, descriptor numbers are not reused, open creates nothing (FUSE passes neither O_CREAT nor O_EXCL on), flock and opendir fail only for a missing directory.
- Inode numbers and timestamps in the reply of getattr: they differ between two servers.
- The shared locks on file descriptors in read, write and readdir, and descriptors that are never closed.
- The Sun RPC transport, the port mapper and time limits: a forward is lost, or executed once or more, and copies arrive again only before the next forward.
- Restoration by `rsync.py` is one assumed step after which two trees agree, hard links included; whether the script's options keep hard links is not modelled.
- A primary that crashes in the middle of a system call comes back by restoration only.
- Clients that disagree about which server is up, and descriptors opened before a failover.
- The cluster's steps execute requests without directory locks; `Locks.PerformIsServe` and `Servers.Server.Handle` connect the two for balanced requests.
- RemoteIsLocal: the handlers behind the wire are those of `handlers.dfy`, without locks and forwarding, on a transport that delivers once; a result that holds numbers out of range is the case of `Rpc.OutOfRange`.
- FailoverKeepsEverything: speaks of one request at a time, and requires what its predicate `Smooth` says of each; `Durability.MissedForwardIsLost`, `Durability.OpenDivergesIff`, `CopiedWrites.CopiedWriteAgreesIff` and `Failover.DuplicateSurvivesIff` say what happens otherwise.
- BbRead: requires size below 2^31, because the running total is a C int. What the buffer holds after a call that failed in the transport is not stated.
- BbWrite: takes the caller's buffer as a sequence, since the loop only reads it; memory behind the buffer stands as zeros.
- WriteLoopIff: speaks of runs in which every call is answered.
- ThreadPools.ThreadPool.Execute: the method runs its four steps without another thread in between; the interleavings are those of the step machine.
- Memory allocation in the filters, XDR_FREE, and strings of 2^32 bytes or more.
- The C library's filters and macros are assumed: 64-bit long, word order and padding as in RFC 4506, a failing filter for a long that does not fit. The library itself is not part of this model.

# Verified model of the native layer of fs-native-extensions

This project models, in Dafny, the parts of the native layer that hold protocol, buffer or
arithmetic logic, and proves what they promise over all inputs, all runs and all failure
patterns. `dafny verify dfyconfig.toml` checks everything.

## What is modelled

**File locks** (`RwLock.dfy`, `WindowsLocks.dfy`, `WindowsLockCalls.dfy`, `OfdLocks.dfy`). `RwLock` is
the reader-writer lock a file lock is meant to be, seen at one byte of the file: what each handle
holds there, and the four things a call can do to that: nothing, gain, weaken to shared in one step,
let go. `WindowsLocks` has the kernel's lock table as a multiset
of entries, and clients that run the lock functions of `src/win32.c:13-116` at the same time. An
upgrade or a downgrade is two kernel calls there, and steps of other clients may come between them.
A client is a handle with a range; it holds at most one lock there, and the ranges of one handle may
overlap. `OfdLocks` has the per-handle, per-byte table of `src/linux.c:19-62`, where `src/posix.c:10-28`
makes an upgrade or a downgrade one converting request. For both, each step of each function is shown
to do a stated one of the four things on every byte of the same `RwLock`. `OfdLocks` also says exactly
which waiting requests can still be granted. `WindowsLockCalls` has the non-blocking functions as methods of a
lock table, with offsets and lengths as the caller gives them, the result codes that reach JavaScript,
and what each call changes byte by byte.

**Asynchronous lock requests** (`AsyncLock.dfy`, `WaiterWork.dfy`, `LockWaiters.dfy`,
`UpgradeWaiters.dfy`). Any number of requests, each a
structure shared by a worker thread and the loop thread, as a machine of micro-steps: the worker
returns from the lock call, stores the result, sends the signal, ends (`src/shared.c:41-51`); the loop
thread submits (`src/shared.c:53-71`), fills in the rest (`binding.c:667-696`), joins and closes
(`src/shared.c:22-39`), and runs the callback line by line (`binding.c:118-170`). The guards are the
real ones: a pending signal, a closing handle, an empty call stack, an ended worker. A new call may
be made from inside a callback. The teardown callback (`binding.c:110-115`) may run between any two
steps. The same three functions serve lock, downgrade and upgrade requests (`src/shared.c:53-157`),
so one machine stands for all three. `LockWaiters` puts this machine on top of the Linux lock table:
many clients wait for exclusive locks, and each closes its file after its callback. `UpgradeWaiters`
puts it on top of the Windows table: many shared holders wait for an upgrade. `WaiterWork` counts the
steps that are left, for both.

**Attribute lists** (`AttrNames.dfy`, `AttrListing.dfy`, `StreamLayout.dfy`, `StreamListing.dfy`). One byte buffer in which
NUL-terminated names are moved up over themselves and a table of 8-byte little-endian pointers is
written in front of them, byte by byte, and the binding's loop that reads such a block back. On
Windows `StreamLayout` writes down the kernel's answer for any streams, record by record in 16-bit
units; the first pass cuts every `:$DATA` in an array with that answer and sizes the result, the second
fills it.

**Trim** (`Words.dfy`, `Trim.dfy`). The rounding of `src/apple.c:41-49` bit by bit in 64-bit words,
and the macOS trim on a file of bytes with a set of blocks that take up space, next to the one-call
form of Linux.

**Windows swap** (`FileTree.dfy`, `TempPath.dfy`, `Swap.dfy`). A file system as a map from paths to
nodes, where a move relabels a subtree; the choice of the temporary path, from strings; the swap
with its rollback, under every pattern of failing moves.

## What the proofs found

- The repository's `README.md:118` says the Windows swap first moves `to` aside. The code moves `from` aside
  first (`src/win32.c:219`); the model follows the code.
- `README.md:82` says a refused try-upgrade loses the shared lock. On Windows it does
  (`WindowsLocks.DeniedUpgradeLosesLock`); on Linux a refused request changes nothing, so the lock is
  kept (`OfdLocks.TryUpgradeIffAlone`).
- On Linux a waiting request can still be granted if and only if it is not one of a set of requests that
  block each other (`OfdLocks.GrantedIffNotDeadlocked`). For shared holders that all upgrade: everyone
  can finish if and only if no two of their ranges overlap (`OfdLocks.UpgradesFinishIffApart`). On
  Windows everyone always finishes (`UpgradeWaiters.EveryUpgradeIsServed`).
- The temporary path of a Windows swap is beside `from` exactly when `from` ends in a name
  (`TempPath.DirectoryIsParent`). When `from` ends in a separator, in `.` or in `..`, the temporary path is
  inside `from`, and the swap always fails, leaving the tree as it was (`Swap.CandidateIsBeside`,
  `Swap.TrailingSeparatorIsInside`, `Swap.FileSystem.Swap`).
- A swap loses data in one case only, whatever the paths and the failing moves: both paths are files, the
  last move fails, the rollback move at line 233 fails and the one at line 234 succeeds. Then exactly the
  node at `to` is gone (`Swap.LeftoverLoses`, `Swap.FileSystem.Swap`).
- `fs_ext__align_up` rounds up if and only if the addition does not wrap; otherwise it gives zero.
- An empty range is refused by the Linux trim and accepted by the macOS one.

## Model

| member | source | states |
|---|---|---|
| RwLock.DoesKeepsSafe | src/linux.c:19-62 | whatever a call does to a file lock never lets two handles hold a byte together unless both hold it shared |
| WindowsLocks.Dropped | test/lock.js:140-155 | closing a handle drops all its locks and no other |
| WindowsLocks.LockRefines | src/win32.c:13-63 | a granted lock call gains the mode on exactly the bytes of the range |
| WindowsLocks.UnlockRefines | src/win32.c:97-116 | an unlock call keeps the table safe and only lets go |
| WindowsLocks.ReleaseModes | src/win32.c:97-116 | after a client unlocks, its handle holds on the bytes of the range what it has there through other locks, at least shared in a downgrade, and nobody else's hold has changed |
| WindowsLocks.StepKeepsInv | src/win32.c:13-116 | every step of every client keeps the table safe and keeps it equal to what the clients' positions say they hold, entry by entry |
| WindowsLocks.StepRefines | src/win32.c:65-95 | every step of lock, upgrade, downgrade, unlock and close does on each byte the named operation of the reader-writer lock: an upgrade lets go and later gains, a downgrade weakens in one step |
| WindowsLocks.RunsRefine | src/win32.c:65-95 | over every run and interleaving, each byte goes through the named operations of the reader-writer lock |
| WindowsLocks.RunsAreSafe | src/win32.c:13-116 | over every run, two handles hold a byte together only if both hold it shared |
| WindowsLocks.DowngradeIsGrantedAtOnce | src/win32.c:65-79 | the shared request of a downgrade is never denied to a holder |
| WindowsLocks.DowngradeCanFinish | src/win32.c:65-79 | whatever happens in between, the unlock of a downgrade is possible and leaves one shared and no exclusive entry |
| WindowsLocks.DowngradeStartsSilently | src/win32.c:65-71 | the first call of a downgrade changes nobody's hold on any byte |
| WindowsLocks.DowngradeIsAtomic | src/win32.c:65-79 | the second call turns exclusive into shared on exactly the range, so the downgrade is atomic as documented |
| WindowsLocks.DowngradeHasNoGap | src/win32.c:65-79 | from holding to letting go, through a downgrade and under any interleaving, the handle holds at least a shared lock on every byte of the range and no other handle an exclusive one |
| WindowsLocks.BlockerIsNotWaiting | src/win32.c:35-63 | a request is refused only because of a client that holds its lock and can itself go on |
| WindowsLocks.SomeUpgraderCanStep | src/win32.c:89-95 | among clients waiting to upgrade someone can always go on |
| WindowsLocks.UpgraderStepCounts | src/win32.c:89-95 | each upgrade step brings the end exactly one step closer |
| WindowsLocks.UpgradersNeverDeadlock | src/win32.c:89-95 | every run of any number of upgrading clients is finite, its length fixed by where it started and ended |
| WindowsLocks.UpgradersStopOnlyWhenDone | src/win32.c:89-95 | upgrading clients stop if and only if all have had and released their exclusive lock |
| WindowsLocks.DeniedIffNotClear | src/win32.c:13-63 | a request is denied if and only if some byte of its range is held: by anyone, its own handle included, for an exclusive lock; exclusively by another handle for a shared one |
| WindowsLocks.CallsAreFree | src/win32.c:13-116 | no state keeps a client from making a lock call, nor a holder from unlocking, upgrading or downgrading |
| WindowsLocks.TryLockAnswers | src/win32.c:13-37 | a try-lock answers at once, with the lock if no byte is in the way and otherwise without any change |
| WindowsLocks.WaitForLockAnswers | src/win32.c:39-63 | a waiting lock call is granted, at any later time of any run, if and only if no byte is in the way then, and gains what it asked for |
| WindowsLocks.UpgradeAnswers | src/win32.c:81-95 | over any run, a try-upgrade can always answer and a waiting one exactly when nobody holds a byte of the range; the answer is the exclusive lock if nobody does, and otherwise no lock is left |
| WindowsLocks.UnlockAnswers | src/win32.c:97-116 | a holder can always unlock and then has no lock on the range |
| WindowsLocks.DeniedUpgradeLosesLock | src/win32.c:81-87 | a try-upgrade that is denied, whatever others did since it let go, leaves the client without any lock, as documented |
| WindowsLockCalls.RangeIsAsked | src/win32.c:15 | a length of zero is the 2^64 - 1 bytes from the offset on, any other length that many bytes |
| WindowsLockCalls.LockTable.LockFile | src/win32.c:13-37 | the call is refused if and only if a byte asked for is in the way, and otherwise gains the mode on exactly these bytes |
| WindowsLockCalls.LockTable.TryLock | src/shared.c:11-20 | granted if and only if no byte asked for is in the way, and every hold on every byte after that; a refusal reaches the caller as EAGAIN whichever code it came with |
| WindowsLockCalls.LockTable.Unlock | src/win32.c:97-116 | takes away one lock on exactly the bytes asked for, exclusive first, or reports that there is none; no hold of others or elsewhere changes |
| WindowsLockCalls.UnlockFrees | src/win32.c:97-116 | giving up the only lock over the bytes leaves them free for the caller |
| WindowsLockCalls.LockTable.LockThenUnlock | src/win32.c:65-71 | the two calls turn the exclusive lock on exactly the bytes asked for into a shared one, and without it change nothing |
| WindowsLockCalls.LockTable.TryDowngradeLock | src/shared.c:73-82 | an exclusive holder always succeeds and then holds exactly the bytes asked for shared; EAGAIN only if another handle has one exclusively |
| WindowsLockCalls.LockTable.TryUpgradeLock | src/win32.c:81-87 | success with exactly the bytes asked for exclusive if nobody holds one once the lock is given up, EAGAIN with it gone if somebody does, or no lock to upgrade and no change |
| WindowsLockCalls.WholeFileIsExclusive | src/win32.c:13-37 | with the default arguments one exclusive lock keeps every other handle out of the whole file until it is given up |
| OfdLocks.StepRefines | src/linux.c:19-62 | every request does on each byte the named operation of the reader-writer lock: an upgrade gains, a downgrade weakens, each in one step |
| OfdLocks.RunsAreSafe | src/posix.c:10-28 | over every run of converting requests each byte behaves as one reader-writer lock |
| OfdLocks.DowngradeIsAtomic | src/posix.c:10-18 | an exclusive holder is always granted the downgrade, which in one step changes exactly its own bytes of the range |
| OfdLocks.TryUpgradeIffAlone | src/posix.c:20-23 | a try-upgrade succeeds if and only if no other handle holds a byte of the range; refused, it changes nothing |
| OfdLocks.TryLockAnswers | src/linux.c:19-32 | a request is granted if and only if no other handle is in the way, exactly on its range; refused, it changes nothing and does not wait |
| OfdLocks.UnlockAnswers | src/linux.c:49-62 | unlocking is always possible and frees exactly the bytes of the range |
| OfdLocks.WaitForLockAnswers | src/linux.c:34-47 | a waiting request can be granted if and only if no other handle is in the way then |
| OfdLocks.WaitForUpgradeAnswers | src/posix.c:25-28 | at any time after a wait-for-upgrade it can be granted if and only if no other handle holds a byte of its range, and makes exactly that range exclusive |
| OfdLocks.WaitForDowngradeAnswers | src/posix.c:15-18 | a wait-for-downgrade of an exclusive holder is granted in the state it finds |
| OfdLocks.DeadlockLasts | src/linux.c:34-47 | requests that block each other are never granted, whatever the other handles do |
| OfdLocks.Serve | src/linux.c:34-47 | from any state the other handles can go on until only requests that block each other are left |
| OfdLocks.GrantedIffNotDeadlocked | src/linux.c:34-47 | a waiting request can still be granted if and only if it is in no set of requests that block each other |
| OfdLocks.UpgradesCanDeadlock | src/posix.c:25-28 | two shared holders waiting to upgrade are never granted, whatever the other handles do |
| OfdLocks.UpgradeGrantedIffNotMutual | src/posix.c:25-28 | a waiting upgrade can still be granted if and only if no other one shares a byte with it |
| OfdLocks.UpgradesFinishIffApart | src/posix.c:25-28 | shared holders that all upgrade can all finish if and only if no two of their ranges overlap |
| OfdLocks.CallersFinishIffApart | src/posix.c:25-28 | shared holders that all call wait-for-upgrade on what they hold come to a state in which everyone can be granted if and only if no two ranges overlap |
| OfdLocks.RunHasFewHolders | src/linux.c:19-62 | in a reached state only finitely many handles hold anything, which the results above ask for |
| OfdLocks.DeadlockIsReachable | src/posix.c:25-28 | a four-step run that ends in that deadlock |
| AsyncLock.StepKeepsInv | src/shared.c:22-71 | every micro-step of either thread keeps the request invariant |
| AsyncLock.RunKeepsInv | src/shared.c:22-71 | the invariant holds in every reachable state, with any number of requests |
| AsyncLock.CallbackFollowsWorker | src/shared.c:22-71 | each callback runs at most once, after the worker ended, was joined and the signal was closed, and delivers what the lock call returned |
| AsyncLock.SignalOutlivesWorker | src/shared.c:29-51 | while a worker may still send, its signal is open |
| AsyncLock.CallbackSeesWholeRequest | binding.c:667-696 | no callback runs before the binding function has returned and set every field it reads |
| AsyncLock.EveryReferenceIsReleasedOnce | binding.c:118-170 | two references and a teardown token are live from the end of the setup to the callback, and each is released exactly once |
| AsyncLock.FlaggedIffTornDown | binding.c:110-115 | a request is flagged as exiting if and only if a teardown ran while its token was registered |
| AsyncLock.JavaScriptIsCalledUnlessTornDown | binding.c:163 | JavaScript is called if and only if no teardown reached the request before the test |
| AsyncLock.WorkerMayFinishFirst | src/shared.c:64-70 | a worker can end with its signal pending before the binding has set anything |
| AsyncLock.JoinMayHaveToWait | src/shared.c:29-39 | the signal can be dispatched while the worker still runs, and the join then waits |
| AsyncLock.CallbackMayCallAgain | binding.c:163 | a callback can make the next request before it returns |
| WaiterWork.NativeStepWorks | src/shared.c:22-71 | every step of a request leaves it less to do |
| WaiterWork.EveryReturnedRequestReleases | binding.c:110-170 | over every run, with teardowns at any time, requests take at most 46 steps each, and when nothing is left to do every one whose lock call returned has had its callback and released all it held |
| LockWaiters.StepKeepsInv | src/shared.c:41-51 | the kernel's waiting requests and locks are at all times those of the blocked and the returned workers |
| LockWaiters.StepShrinksMeasure | src/shared.c:22-71 | every step of the waiters' system leaves less to do |
| LockWaiters.SomeoneCanStep | src/shared.c:41-51 | until every waiter has been served some step is possible |
| LockWaiters.NeverTwoHolders | test/lock.js:212-226 | no two waiters ever hold a byte together |
| LockWaiters.EveryWaiterIsServed | src/shared.c:41-71 | every run of n waiters on any ranges is at most 47 n steps long and, when it cannot go on, has called back every waiter exactly once with success and left the file unlocked |
| UpgradeWaiters.SomeRunStarts | src/win32.c:89-95 | any number of clients on any ranges can come to hold their shared locks |
| UpgradeWaiters.StepKeepsInv | src/shared.c:116-157 | the kernel's clients stand at all times where their requests say: sharing, in between, or upgraded |
| UpgradeWaiters.SomeoneCanStep | src/shared.c:116-157 | until every client has been served some step is possible |
| UpgradeWaiters.UpgradedAreApart | src/win32.c:89-95 | no two clients have their exclusive locks on overlapping ranges together |
| UpgradeWaiters.EveryUpgradeIsServed | src/shared.c:116-157 | however the ranges of n shared holders overlap, every run of their upgrades is at most 48 n steps long and, when it cannot go on, has called back every client exactly once with success and left no lock |
| AttrNames.LittleEndianRoundTrip | binding.c:1763 | a number written as bytes is read back |
| AttrNames.PointerRoundTrip | binding.c:1763 | a pointer copied into the buffer as bytes is the pointer read from it |
| AttrNames.NamesOfFlatten | src/linux.c:118-125 | walking a buffer of terminated names finds exactly the names, in order |
| AttrNames.FlattenOfNames | src/linux.c:118-125 | any terminated buffer is its names written one after another |
| AttrNames.TableEntry | src/linux.c:135-141 | the entry i of the table is the address of the start of the name i |
| AttrNames.NameAt | src/linux.c:135-137 | the name i with its terminator is at its start among the names |
| AttrNames.PackedEntry | binding.c:1769-1776 | following the pointer i of the block leads inside the block, to the name i and its terminator |
| AttrListing.StringLength | src/linux.c:123 | the length up to the first NUL |
| AttrListing.MoveBytes | src/linux.c:131 | the target range holds what the source range held before, although they overlap |
| AttrListing.CountNames | src/linux.c:118-125 | the number of names in the buffer |
| AttrListing.WriteEntry | src/linux.c:135-141 | one more pointer is in place and no byte of the names has changed |
| AttrListing.WriteTable | src/linux.c:133-141 | the whole table is in front of the unchanged names |
| AttrListing.ListAttrs | src/linux.c:105-144 | on success the block is the table and then exactly the kernel's names in order; otherwise the failing call's error |
| AttrListing.ReadList | binding.c:1763-1776 | the binding reads back exactly the names of the block, in order |
| AttrListing.ListAttrsSync | binding.c:1736-1781 | the list, written out again, is the kernel's buffer |
| StreamListing.AnswerIsChain | src/win32.c:480-498 | the kernel's answer for any streams is a chain that both passes can walk |
| StreamListing.EncodedIsNames | src/win32.c:481-526 | what the passes encode are the streams' names that are not empty, without colon and type, in order |
| StreamListing.RecordAfterCuts | src/win32.c:480-498 | cutting suffixes in place damages no link and no other name |
| StreamListing.QuerySize | src/win32.c:443-467 | the query loop ends with a size that fits and is less than twice the required one, or the first size |
| StreamListing.CutName | src/win32.c:481-483 | one name has lost its suffix and nothing else has changed |
| StreamListing.CutAndMeasure | src/win32.c:475-498 | the count and the size of the first pass are those of the final block |
| StreamListing.PutName | src/win32.c:510-518 | one more name and its pointer are in place |
| StreamListing.Fill | src/win32.c:500-526 | the second pass fills the block exactly |
| StreamListing.ListAttrs | src/win32.c:439-531 | for any streams the block holds the names that are not empty, encoded, in order, behind their table |
| StreamListing.ListAttrsSync | binding.c:1736-1781 | reading the block back gives those names |
| Words.AndWithHighBits | src/apple.c:43 | masking with a negated power of two takes away the remainder |
| Words.AlignDownIsGreatest | src/apple.c:46-49 | the greatest multiple not above n |
| Words.AlignUpIsLeast | src/apple.c:41-44 | the least multiple not below n if and only if the addition does not wrap, and zero otherwise |
| Trim.ZeroedIsPunched | src/linux.c:64-69 | zeroing a range without changing the size is punching a hole over it |
| Trim.MiddleCoversTheSame | src/apple.c:66-91 | the aligned middle covers exactly the blocks that the whole range covers |
| Trim.CoveredIffBytes | README.md:98 | a block counts as covered if and only if all its bytes are in the range |
| Trim.TouchedIffByte | src/apple.c:68-81 | a block counts as touched if and only if some byte of it is in the range |
| Trim.PunchNeeded | src/apple.c:83-85 | a hole is punched if and only if the range covers a block |
| Trim.TailNeeded | src/apple.c:101 | a tail is written if and only if the range ends inside a block whose first byte it has |
| Trim.HeadIsPartial | src/apple.c:68-81 | no block written by the zeroed head is wholly inside the range |
| Trim.TailIsPartial | src/apple.c:101-109 | no block written by the zeroed tail is wholly inside the range |
| Trim.DataFile.LinuxTrim | src/linux.c:64-69 | the range is zero, the size kept, the covered blocks freed |
| Trim.DataFile.PunchMiddle | src/apple.c:85-99 | on whole blocks the punch is never refused and frees exactly the covered blocks |
| Trim.DataFile.MacTrim | src/apple.c:56-112 | the result is that of the first failing call among those the range needs; the range reads as zeros and nothing else has changed, covered blocks and only they are freed, inside the file the bytes are those of the Linux form, a failing call leaves a zeroed prefix |
| FileTree.LookupMoved | src/win32.c:201-210 | a move relabels one subtree and changes nothing else |
| FileTree.MovedIsTree | src/win32.c:201-210 | a possible move leaves a tree |
| FileTree.MoveBack | src/win32.c:224-228 | moving to a free path can be undone, and undoing it restores the tree |
| FileTree.MoveLosesNothing | src/win32.c:201-210 | a move to a free path keeps every node of the tree, as often as it was there |
| FileTree.WithoutOneIsLoss | src/win32.c:232-237 | a tree without one of its nodes has lost something, whatever else is in it |
| TempPath.LastSeparator | src/win32.c:171-173 | the last separator of either kind |
| TempPath.WalkAround | src/win32.c:171-183 | a string leads where its part before the last separator leads and from there where its last piece leads |
| TempPath.DirectoryOf | src/win32.c:171-183 | the base leads to what its last segment leads to from the directory string, with `.` and `..` resolved |
| TempPath.DirectoryIsParent | src/win32.c:171-183 | the directory string names the parent of the base if the base ends in a name, and otherwise something at or inside the base |
| TempPath.TrailingSeparator | src/win32.c:171-183 | for a name with a separator behind it the directory string is the named path itself |
| TempPath.OnePiece | src/win32.c:171-183 | what a string of one piece names, `.`, `..` and the empty string included |
| TempPath.Joined | src/win32.c:171-183 | the part behind a separator is seen from where the part before it leads |
| TempPath.FromTheRoot | src/win32.c:180 | a string that starts with a separator leads to the same place from everywhere |
| TempPath.CandidateNumber | src/win32.c:185-191 | the candidates are those of consecutive numbers, with the prefix of the code |
| TempPath.CandidatesDiffer | src/win32.c:185-191 | the 64 candidate names are pairwise different |
| Swap.ThreeMovesExchange | src/win32.c:219-230 | the three moves exchange the two subtrees and leave everything else |
| Swap.OverIsMovable | src/win32.c:222 | once `from` is aside, exactly which `to` can take its place: an existing one apart from it, or what lies under the temporary path |
| Swap.FinishIsMovable | src/win32.c:230 | and then the last move is possible |
| Swap.FinishImpliesApart | src/win32.c:230 | and only then |
| Swap.BackOverTarget | src/win32.c:232-237 | moving the temporary back over the target is possible only between files, and leaves the tree without the node at `to` |
| Swap.AfterTwoMoves | src/win32.c:230-237 | when the last move is possible after the first two, and when the second rollback move is, for all paths |
| Swap.AwayKeepsBoth | src/win32.c:219-228 | after one move each subtree is whole at a path of its own and nothing else has changed |
| Swap.OverKeepsBoth | src/win32.c:222-237 | after two moves each subtree is whole at a path of its own and nothing else has changed |
| Swap.LeftoverLoses | src/win32.c:219-239 | over all fault patterns and all paths, the tree of a failed swap has lost a node if and only if the second rollback move overwrote `to`; otherwise both subtrees are whole |
| Swap.CandidateIsBeside | src/win32.c:171-191 | a free candidate is beside `from` if `from` ends in a name, and otherwise a place `from` cannot be moved to |
| Swap.TrailingSeparatorIsInside | src/win32.c:171-191 | the temporary path of `d/` is inside `d`, which cannot be moved there |
| Swap.FileSystem.Move | src/win32.c:201-210 | the move takes effect exactly when it reports success |
| Swap.FileSystem.FreePath | src/win32.c:163-199 | the first of the 64 candidates that does not exist, the error of the first name that cannot be made before that, EEXIST if and only if all exist, or that the base is too long |
| Swap.FileSystem.Swap | src/win32.c:212-240 | which code it returns: of the search or of the first move that fails, whatever the rollback does; that success exchanges the subtrees and leaves no temporary, the tree it leaves for every pattern of failing moves, that a failure restores the tree unless a rollback move fails, and exactly when a node is lost |

## Left out

- The insides of libuv, the JavaScript engine, the kernels and the file systems: only the small step relations described above are assumed of them, among them that a callback is dispatched only when nothing is on the loop thread's stack.
- JavaScript argument handling and promises (`index.js`) and value marshalling in `binding.c`.
- `getAttr`, `setAttr`, `removeAttr`, `sparse`, and the swap on Linux and macOS: single calls with error translation.
- Trim, swap and attribute requests as asynchronous requests (`src/shared.c:164-397`): they run on the thread pool without the signal and join that make the lock request hard.
- Locks on macOS (`src/apple.c:14-39`): whole-file `flock` calls, whose conversions are not atomic; every other range is refused.
- Lock calls that fail for other reasons than a lock in the way, offsets beyond the 64-bit range, and closing a handle while one of its own calls is running.
- OfdLocks.GrantedIffNotDeadlocked: says which requests can still be granted, not that they will be; a waiter may be overtaken for ever by others that keep coming. It takes each handle to wait once.
- LockWaiters.EveryWaiterIsServed: on the Linux table; assumes that lock calls do not fail and that the environment is not torn down meanwhile.
- UpgradeWaiters.EveryUpgradeIsServed: the same, on the Windows table; on the Linux one upgrades can block each other.
- AttrListing.ListAttrs: assumes that both `flistxattr` calls see the same list, because the code sizes the second by the first; that the list is terminated is the kernel's promise.
- AttrListing.ListAttrsSync: assumes that the block and its end have addresses; a bound of nine bytes for each byte of the list is enough.
- StreamListing.ListAttrs: assumes at least one stream, all of type `$DATA`, and names without a NUL; UTF-16 to UTF-8 conversion is any function to NUL-free bytes.
- Trim.DataFile.MacTrim: assumes that `pwrite` writes all or fails, a block size that is a power of two, and that offset plus length, and offset plus block size, stay within 64 bits.
- Swap.FileSystem.Swap: assumes that nobody else changes the tree meanwhile, ignores drive letters, letter case and trailing dots and spaces in names, and takes `GetFileAttributes` to fail only where nothing exists.
- TempPath.CandidatesDiffer: a candidate number whose low 16 bits are zero, for which the system would pick a number of its own and create the file, is treated like the others.

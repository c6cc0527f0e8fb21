# planetfs, modelled and proved in Dafny

planetfs is an in-memory file system in the style of Plan 9. Every file and directory
belongs to an *operations type*, and what creating, opening, reading, writing or removing an
entry does is up to that type. The TCP types turn `/tcp` into an interface to the network:
opening `/tcp/clone` allocates a session `/tcp/N` with five files, control requests written to
`/tcp/N/ctl` connect or listen, reading `/tcp/N/listen` accepts a connection into a new
session, and one shared table owns the descriptors.

These parts call back into each other. Opening `clone` re-enters the file system to ask the
current session's control file whether it is in use, creates a directory whose hook creates
five more files, and opens one of them; reading `listen` opens, reads and closes `clone`. The
project models them together, first as simple specifications with their theorems, then as
objects with fields that are proved to do exactly what the specifications say.

Check everything with `dafny verify dfyconfig.toml`.

## How the project is laid out

| file | what it holds |
|---|---|
| `Options.dfy`, `Strings.dfy`, `Decimal.dfy` | optional values; splitting and joining; numerals and the numbers they denote |
| `Regex.dfy` | a backtracking matcher that explores alternatives in the order of a Perl-style engine |
| `RequestParser.dfy` | the request grammar run by that matcher, a one-pass scanner, the token loop, printing and reading back |
| `Paths.dfy` | path strings, their components, parent and file name |
| `FlatTree.dfy` | the tree as a prefix-closed map from component paths; creation with re-entrant hooks, rollback, removal |
| `FileData.dfy`, `FileSystem.dfy` | byte files; the linked directory tree, proved to refine the map |
| `Registry.dfy` | the type registry, its history, dispatch, installing packages of types |
| `Routes.dfy` | the path expressions, session keys, the static types and where each path is routed |
| `FdTable.dfy` | the descriptor table over an abstract kernel, and conservation |
| `Requests.dfy` | the control requests as a per-session state machine |
| `Sessions.dfy` | session directories: their paths and the hook that creates their files |
| `Protocol.dfy` | the whole protocol as a step machine: `World`, `Do`, `AllowedRun`, `Exec` |
| `ProtocolInvariant.dfy`, `ProtocolSteps.dfy`, `ProtocolTheorems.dfy` | the invariant, its preservation by every call, and what follows for every run |
| `Conservation.dfy` | which sockets are open after any run, who owns them, and which calls leave one without an owner |
| `Addresses.dfy` | which arguments of a connect and an announcement are addresses, on every string |
| `RequestLaws.dfy` | what each control request does to the session's socket and what it answers |
| `Readings.dfy` | what handles tell over a run: a number once, a connection once |
| `PathRules.dfy` | creating, removing and opening by path alone, and the files no run takes away |
| `PathKeys.dfy` | the paths in the descriptor table against the client and server files in the tree |
| `RequestLines.dfy`, `Scenarios.dfy` | concrete runs from the start on which the conditions of the theorems fail |
| `Files.dfy` | the bytes of files under the protocol: which file a path and a handle stand for, and what reads give after any run |
| `Handles.dfy` | the handle table |
| `Poller.dfy`, `PollMachine.dfy` | the poller object, and every interleaving of sweeps with polls, opens and the steps of a close |
| `Planet.dfy` | the running system: objects with fields, calls that re-enter, each proved against `Protocol`; whole runs refine the machine |

A creation hook is a value, `FlatTree.Hook`: the tree of creations it asks for, with the points
where it returns or throws. Every hook run that ends has this shape, at any nesting depth, so
nothing is bounded. The kernel is a parameter: `Requests.Answers` says which descriptor a
connect, listen or accept yields, which sockets are opened on the way to it and forgotten, which state queries fail, whether socket options fail, and at
which of its five creations a session hook runs out of luck. A lookup or an operation that
throws gives `None`, `Refused`, `Threw` or `threw`.

`Protocol` says nothing of the bytes in files. `Files.System` adds them: every file is told apart
by its path and by the call that created it, a handle on a default file is bound to the file its
path stood for when it was opened, and removing a path takes no file away. Bytes are chars, in
files as in requests. In `Planet` each of these files is one entry object of the linked tree.

`Protocol.World` is the tree, the live handles with the state of their operation objects, the
last handle number, the descriptor table with the open sockets, the session counter, and the
history of numbers handed out. Its transition functions follow
`src/planet/fs_core.cpp:48-273` and the types in `src/planet/net/tcp/`. They give the net effect
of a call in one expression; `Planet` has the steps in the order of the code, and shows that
they add up to that effect.

## Hypotheses

The code does not enforce these; they are stated in `Protocol.Allowed`, in `OnPlainPath`, in
`PollMachine.KernelPromise`, or as `requires`:

- mknod and mkdir do not look for an existing entry, and register_ops does not look for an
  existing name: new names are absent. `FileSystem.AddThenRemove` says what happens otherwise.
- A negative return code of a creation hook is ignored; only a throw rolls back.
- Session directories come from `clone` only. Removing one is allowed when no control handle on
  it is open.
- A client closes the handles it was given, not the control handle inside a clone.
- A socket that is neither established nor listening does not become so by itself. The states
  may otherwise change between any two calls.
- The kernel hands out descriptors that are not open (numbers may come back after a close), poll
  handles that were not used before, and paths that are absolute and have no empty component. It
  polls only files whose open has returned and whose close has not yet left the poller.
- Each protocol call is one atomic step, as `fd_table` and the counter have no lock. The
  poller's machine is finer: there, open is two steps, close is three, and a sweep is one per entry.

## Properties the code has only under a condition

- Rolling back a failed creation restores the tree exactly when everything the hook leaves lies
  below the new path; what it leaves is read off the hook (`Left`, `RollbackRestoresIff`). A hook
  that created elsewhere leaks (`UnconfinedHookLeaks`).
- The control file's table key equals the key of the other session files exactly when the
  directory's numeral has no leading zero (`KeysAgreeIff`): `/tcp/007/ctl` uses key `7`, while
  `/tcp/007/data` uses key `007` (`LeadingZerosPart`).
- A failed installation restores the registry exactly when no nested package had been completed
  (`FailedInstallRestoresIff`); `FailedInstallLeaves` is a package that leaves one behind.
- A printed request reads back exactly when its arguments are clean (`PrintReadBack`,
  `ReadsBackCleanly`): no leading blank on the first, a non-empty last, except that one argument
  of a single blank survives.
- No sweep can meet an invalid handle after a poll exactly when the polled handle was open and
  had not left the poller (`PollIsHarmlessIff`); for any other poll some continuation has such a
  sweep, as after a poll between the last two steps of a close (`LatePollIsHit`).
- A successful accept closes no connected or listening socket exactly when the session it is
  about to get is not in use (`AcceptSparesIff`, in any world). It can be in use when its control
  file is gone, since the probes go through that file; after allowed calls it never is
  (`AcceptIsSafe`). `RemovalBreaksAccept` is a run on which it is: a session directory is removed
  under its open control handle, which the code accepts, and the session connects all the same.
- At `/tcp/clone` the client type matches as well as the clone type. Every other path is routed
  the same way in any order of registration; that one is exactly when clone was registered before
  client (`RoutingIsSettledIff`), and goes to the client type otherwise (`ClientFirstTakesClone`).
- Every open socket has an owner exactly when no call of the run stranded one, and the open
  sockets without an owner are exactly those that were stranded (`SocketsAreConserved`,
  `StrandedBy`). Two kinds of calls strand: an accept of a session whose number does not fit the
  buffer of the read (`SmallReadStrands`), and the setup of a socket that opens others on its way. An
  announcement or a server file forgets its socket when it cannot be bound (`FailedBindStrands`); a
  connection goes through all addresses of its host and keeps the last one's socket only
  (`SecondAddressStrands`).

## Model

| member | source | states |
|---|---|---|
| Decimal.DecOfValIff | src/planet/net/tcp/ctl_op.cpp:16-28 | reading a numeral as a number and printing it gives the same digits exactly when there was no leading zero |
| Paths.PlainParts | src/planet/fs_core.cpp:55-64 | parent path and file name of a path are its components but the last, and the last |
| FlatTree.CreationIsAtomic | src/planet/fs_core.cpp:55-76 | if any hook at any depth throws, the tree is the one before; otherwise the new path is there and everything else that is new lies below it |
| FlatTree.HookLeaves | src/planet/fs_core.cpp:55-76 | whether a hook throws, and which paths it leaves, can be read off the hook, at any nesting depth |
| FlatTree.RollbackRestoresIff | src/planet/fs_core.cpp:65-72 | the creation fails exactly when something in its hook throws; the earlier tree is then back exactly when all that the hook leaves lies below the new path |
| FlatTree.RollbackOfAnyHook | src/planet/fs_core.cpp:65-72 | the same when the hook names directories that are not there, which count as throws |
| FlatTree.UnconfinedHookLeaks | src/planet/fs_core.cpp:116-123 | a concrete hook that creates elsewhere and then throws leaves that entry in the tree |
| FlatTree.CreateGrows | src/planet/fs_core.cpp:101-127 | as long as no new name is taken, creation keeps the map prefix-closed and changes no existing entry, whatever the hook does |
| FlatTree.RemovesExactly | src/planet/fs_core.cpp:78-147 | when a removal throws and what it returns; a successful unlink takes away one path, a successful rmdir the whole subtree, and a refused one nothing |
| FileSystem.Entry.Read | src/planet/basic_operation.cpp:18-26 | at most size bytes from the offset on, none past the end |
| FileSystem.Entry.Write | src/planet/basic_operation.cpp:28-35 | bytes outside the range are kept, a gap becomes zeros, the length is the maximum of old length and end of write |
| FileSystem.Entry.Truncate | src/planet/fs_core.cpp:180 | the length is the given one; bytes are cut or zeros are added |
| FileSystem.SearchIsFirst | src/planet/fs_entry.cpp:143-151 | the first entry of that name, or null exactly when there is none |
| FileSystem.RemoveEntry | src/planet/fs_entry.cpp:153-165 | every entry of that name goes, every other one stays |
| FileSystem.RemoveKeepsOrder | src/planet/fs_entry.cpp:153-165 | each part of the list is treated on its own, so what stays keeps its order |
| FileSystem.AddThenRemove | src/planet/fs_core.cpp:63-72 | taking a new entry out by its name restores the list exactly when the name was not in use |
| FileSystem.FileSystem.WalkFindsPath | src/planet/fs_core.cpp:345-357 | lookup by peeling the string finds the entry at the component path, and nothing when a component is missing or is a file in the middle |
| FileSystem.FileSystem.LookupRefinesMap | src/planet/fs_core.cpp:340-357 | on every string the lookup answers what the flat map says, including the strings it refuses |
| FileSystem.FileSystem.AddEntry | include/planet/fs_entry.hpp:130-136 | linking an entry adds exactly its path to the map |
| FileSystem.FileSystem.DropEntry | src/planet/fs_entry.cpp:153-165 | unlinking a name takes exactly its path and all below it out of the map |
| FileSystem.AddStaysConsistent | include/planet/fs_entry.hpp:130-136 | the linked lists and the map still describe the same tree after an addition |
| FileSystem.CutStaysConsistent | src/planet/fs_entry.cpp:153-165 | and after a removal |
| FileSystem.FileSystem.CreateEntry | src/planet/fs_core.cpp:108-127 | mknod and mkdir with re-entrant hooks do to the linked tree what creation does to the map; existing entries stay the same objects |
| FileSystem.FileSystem.CreateUnder | src/planet/fs_core.cpp:58-72 | link, run the hook, unlink again exactly when the hook threw |
| FileSystem.FileSystem.ExecuteHook | src/planet/net/tcp/session_dir_op.cpp:24-32 | a hook's creations in order, stopping at the first that throws |
| FileSystem.FileSystem.RemovePath | src/planet/fs_core.cpp:78-99 | unlink and rmdir with the type's veto do to the linked tree what removal does to the map, and change no file's data |
| FileData.WriteMeaning | src/planet/basic_operation.cpp:28-35 | every byte and the length after a write, over all offsets |
| FileData.ReadBack | src/planet/basic_operation.cpp:18-35 | reading the range of a write gives what was written |
| FileData.DisjointWritesCommute | src/planet/basic_operation.cpp:28-35 | writes to disjoint ranges commute, also with a gap between them |
| FileData.ChunkedWrite | src/planet/basic_operation.cpp:28-35 | any chunking of a write gives the bytes of the single write |
| FileData.ChunkedRead | src/planet/basic_operation.cpp:18-26 | a sequential read loop gives the bytes of the single read |
| FileData.TruncateMeaning | src/planet/fs_core.cpp:176-184 | cutting and growing again leaves zeros, not the old bytes |
| Registry.StableSortIsStable | src/planet/ops_type_db.cpp:26-33 | the result is sorted by decreasing priority and keeps the order within each priority |
| Registry.StableSortUnique | src/planet/ops_type_db.cpp:28-33 | these two conditions determine the sequence, so any stable sort gives it |
| Registry.RegistryIsSortedSurvivors | src/planet/ops_type_db.cpp:24-43 | one more event keeps the registry the stable sort of the registrations no later event took away |
| Registry.RegistryAfterHistory | src/planet/ops_type_db.cpp:24-43 | so it is after any history |
| Registry.DispatchPicksBest | src/planet/ops_type_db.cpp:45-54 | the first match is the earliest registered among the matching types of highest priority; there is none exactly when nothing matches |
| Registry.NameLeadsBack | src/planet/ops_type_db.cpp:56-62 | with unique names, looking the dispatched name up gives that very type |
| Registry.OpsTypeDb.RegisterOps | src/planet/ops_type_db.cpp:24-38 | the new entry goes behind everything of at least its priority; the registry stays the sorted survivors of its history |
| Registry.OpsTypeDb.UnregisterOps | src/planet/ops_type_db.cpp:95-104 | every entry of that name goes, the others keep their order |
| Registry.OpsTypeDb.ClearAll | src/planet/ops_type_db.cpp:82-85 | nothing is left |
| Registry.OpsTypeDb.GetNameByPath | src/planet/ops_type_db.cpp:45-54 | the name of the best surviving registration for the path; an exception exactly when no survivor matches |
| Registry.OpsTypeDb.GetOps | src/planet/ops_type_db.cpp:56-62 | the first type of that name, or an exception exactly when there is none |
| Registry.OpsTypeDb.InfoList | src/planet/ops_type_db.cpp:69-80 | names and priorities, in registry order |
| Registry.InstallEffect | src/planet/fs_core.cpp:301-312 | an installation succeeds exactly when every hook in the package does; what is registered afterwards in either case |
| Registry.FailedInstallRestoresIff | src/planet/fs_core.cpp:304-311 | a failed installation restores the registry exactly when no nested package was complete; a leaf always does |
| Registry.FailedInstallLeaves | src/planet/fs_core.cpp:304-311 | a package whose second nested type fails leaves its first one registered |
| Registry.UninstallUndoes | src/planet/fs_core.cpp:314-321 | uninstalling what was installed last gives back the exact earlier sequence, at any nesting depth |
| Registry.InstallRoundTrip | src/planet/fs_core.cpp:301-321 | installing and uninstalling a package of fresh names restores the registry with its order |
| Registry.InstallOps | src/planet/fs_core.cpp:301-312 | the loop over the nested types, on the registry object, has the effect of the specification |
| Registry.UninstallOps | src/planet/fs_core.cpp:314-321 | likewise in reverse order, stopping at the first exception; the name goes whether or not the hook ran |
| Registry.UninstallStopsAtMissing | src/planet/fs_core.cpp:314-321 | an uninstallation that does not find a nested type stops there: those behind it are gone, those before it stay registered |
| Routes.SessionReIff | src/planet/net/tcp/common.cpp:10-17 | the session expressions match exactly the paths of their form and capture the numeral |
| Routes.DirNumberLayout | src/planet/net/common.cpp:60-67 | on every string: a slash, a word, a slash and all the digits that follow give the key, if only slashes and word characters are left; else an exception |
| Routes.DirNumberOf | src/planet/net/common.cpp:60-67 | for paths laid out so, the key is the numeral, whatever the first component |
| Routes.KeysAgreeIff | src/planet/net/tcp/ctl_op.cpp:16-22 | control file and other session files use the same table key exactly when the numeral has no leading zero; beyond int the control file throws |
| Routes.LeadingZerosPart | src/planet/net/tcp/ctl_op.cpp:16-22 | `/tcp/007/ctl` reads 7, while `/tcp/007/data` uses the key 007 |
| Routes.KeysDoNotCollide | include/planet/net/tcp/client_op.hpp:49-66 | distinct sessions have distinct keys, and no session key is a path key |
| Routes.MatchIsRoute | include/planet/net/tcp/client_op.hpp:68-73 | the specific types are pairwise disjoint over all paths but `/tcp/clone` |
| Routes.RoutingIsSettledIff | src/planet/ops_type_db.cpp:45-54 | in any registration order every path no other type claims is routed the same way, but for `/tcp/clone`, where this holds exactly when clone came before client |
| Routes.ClientFirstTakesClone | src/planet/ops_type_db.cpp:45-54 | with client registered first `/tcp/clone` goes to the client type, and every other path as before |
| Routes.TcpRoundTrip | include/planet/net/tcp/installer.hpp:31-64 | installing and uninstalling the ten TCP types and their installer restores the registry |
| Routes.TcpInstallRoutes | include/planet/net/tcp/installer.hpp:31-45 | after that installation over the two defaults every path is routed by `Route` |
| RequestParser.BacktrackingFindsLayout | src/planet/request_parser.cpp:12-19 | the backtracking grammar, run to its first success, splits a request where the greedy runs say |
| RequestParser.GrammarAgreesWithScanner | src/planet/request_parser.cpp:12-34 | grammar and one-pass scanner agree on every string, with the same parts |
| RequestParser.TokensOfSplit | src/planet/request_parser.cpp:50-68 | the token iterator yields the pieces between delimiters, without a last empty one |
| RequestParser.CollectArgs | src/planet/request_parser.cpp:55-66 | the arguments are the tokens that match the filter, in order and as often as they occur, with what they captured; no other token is |
| RequestParser.MatchingSelects | src/planet/request_parser.cpp:55-66 | the arguments stand at increasing positions among the tokens, each matched by the filter in full, and no matching token is missing |
| RequestParser.Parser.Parse | src/planet/request_parser.cpp:25-34 | true exactly when the scanner accepts; a rejected request leaves the earlier result |
| RequestParser.Parser.GetCommand | src/planet/request_parser.cpp:36-41 | the longest run of command characters that the last parsed request starts with, never empty; an exception before any |
| RequestParser.Parser.GetArgs | src/planet/request_parser.cpp:43-68 | the arguments of the last parsed request that match all of the filter, and no others; an exception before any |
| RequestParser.ReadsLine | src/planet/request_parser.cpp:12-19 | command and one space: rejected when nothing follows, and two blanks give a one-blank argument |
| RequestParser.PrintReadBack | src/planet/request_parser.cpp:25-68 | a printed command with its arguments reads back exactly when the arguments are clean |
| Addresses.AnyPortIff | src/planet/net/tcp/ctl_op.cpp:41-42 | on every string: the announce expression matches exactly `*!` with a port of one to six digits and newlines, and captures the port |
| Addresses.Ipv4PortIff | src/planet/net/tcp/ctl_op.cpp:38-40 | on every string: the connect expression matches exactly four groups of one to three digits with dots, `!`, a port and newlines, and captures host and port |
| Addresses.TargetsIff | src/planet/net/tcp/ctl_op.cpp:80-91 | a request has a target exactly when one of its arguments has that form |
| RequestLines.FooIsNoTarget | src/planet/request_parser.cpp:60 | an argument without the form of an address is no target of either request |
| FdTable.Table.FindKey | src/planet/net/common.cpp:13-21 | the descriptor of the key, or none |
| FdTable.Table.EraseEntry | src/planet/net/common.cpp:33-39 | the descriptor is closed and the key is gone |
| FdTable.Table.InsertEntry | src/planet/net/common.cpp:46-53 | what the key held is closed first, then the key holds the new descriptor |
| FdTable.DescriptorsConserved | src/planet/net/common.cpp:33-53 | over any inserts and erases, held descriptors are open and distinct, nothing else is open, and each was closed once per opening that is not held |
| FdTable.ConservedFromTheStart | src/planet/net/common.cpp:33-53 | the same from the empty table |
| Requests.RequestIsIsolated | src/planet/net/tcp/ctl_op.cpp:63-115 | a request changes at most its own key and closes only what that key held; it changes nothing when it returns an error; when it throws, the table and all open sockets are as before, and what else is open are the strays of its setup |
| RequestLaws.AskMeans | src/planet/net/tcp/ctl_op.cpp:71-77 | asking changes nothing, throws exactly when the state cannot be read, and says yes exactly when the session's socket is in that state |
| RequestLaws.ConnectMeans | src/planet/net/tcp/ctl_op.cpp:78-88 | a connect throws when the state cannot be read, is refused exactly when connected, and as not supported exactly when no argument is an address; otherwise the new connected socket is under the key and the old one closed, or table and sockets stay |
| RequestLaws.AnnounceMeans | src/planet/net/tcp/ctl_op.cpp:88-96 | the same for a listening socket |
| RequestLaws.HangupMeans | src/planet/net/tcp/ctl_op.cpp:97-98 | success; the session's socket is closed and its key gone, all others stay, and whatever is asked next finds no socket |
| RequestLaws.KeepaliveMeans | src/planet/net/tcp/ctl_op.cpp:99-111 | an error exactly without a socket, an exception exactly when an option cannot be set |
| RequestLaws.OthersAreRefused | src/planet/net/tcp/ctl_op.cpp:66-115 | any other line is not supported and changes nothing |
| RequestLaws.ConnectedUntilHangup | src/planet/net/tcp/ctl_op.cpp:71-98 | after a successful connect the session says it is connected and refuses another connect; after a hangup it is not |
| Sessions.RouteOfNames | src/planet/net/tcp/common.cpp:10-17 | which component paths are sessions, `/tcp` and `/tcp/clone` |
| Sessions.SessionCreation | src/planet/net/tcp/session_dir_op.cpp:24-32 | creating a session gives its directory with all five files, or the tree before when anything throws on the way |
| PathRules.MknodRule | src/planet/fs_core.cpp:48-76 | below a directory exactly the file is added; a client's connected or a server's listening socket is then under its path, and without a socket there is no file |
| PathRules.MkdirRule | src/planet/fs_core.cpp:101-127 | below a directory exactly the directory is added, `/tcp` with its clone file and a session with its five files, or nothing at all |
| PathRules.UnlinkRule | src/planet/fs_core.cpp:78-99 | an unlink takes exactly the file, unless it is clone or a session's control or data file; a client or server gives up its socket; nothing else changes |
| PathRules.RmdirRule | src/planet/fs_core.cpp:129-147 | an rmdir takes exactly the directory with all below it, unless it is `/tcp`; a session gives up its socket; nothing else changes |
| PathRules.OpenSessionFile | src/planet/net/tcp/ctl_op.cpp:14-22 | a control file opens with its number unless that is beyond int, a listen file always, the other files exactly when the session has a socket, which they give |
| PathRules.OpenSocketFile | src/planet/net/tcp/server_op.cpp:18-30 | a client opens with its socket, a server with a new connection that is the handle's own; neither without a socket under the path |
| PathRules.OpenOtherPath | src/planet/fs_core.cpp:215-239 | every other file but clone opens as a default file; a directory, or nothing, does not open |
| PathRules.SessionsKeepTheirFiles | include/planet/net/tcp/data_op.hpp:53-56 | over every run clone is there, and a session that has its directory has its control and data files |
| ProtocolSteps.StartIsGood | src/planet/net/tcp/dir_op.cpp:25-28 | the program's start satisfies the protocol invariant |
| ProtocolSteps.SessionAdded | src/planet/net/tcp/clone_op.cpp:34-42 | creating session n adds that session only and keeps every directory good |
| ProtocolSteps.AllocateKeeps | src/planet/net/tcp/clone_op.cpp:34-42 | opening clone for a number keeps the invariant and has all or none of its effects on handles and numbers |
| ProtocolSteps.OpenCloneKeeps | src/planet/net/tcp/clone_op.cpp:65-90 | opening clone, with its probes, keeps the invariant; the number moves on only past a session in use |
| ProtocolSteps.AcceptKeeps | src/planet/net/tcp/listen_op.cpp:44-72 | reading a listen file keeps the invariant, on every way out |
| ProtocolInvariant.CloseKeeps | src/planet/fs_core.cpp:262-273 | closing keeps the invariant, with the control handle a clone owns |
| ProtocolSteps.SessionGone | src/planet/net/tcp/session_dir_op.cpp:34-38 | removing a session nobody holds a control handle on keeps the invariant |
| ProtocolSteps.CallKeeps | src/planet/fs_core.cpp:48-273 | every allowed call keeps the invariant |
| ProtocolSteps.RunKeeps | src/planet/fs_core.cpp:48-273 | so does every run |
| ProtocolTheorems.TableTreeAndCounter | src/planet/net/tcp/clone_op.cpp:74-90 | over every run, table keys are paths or existing sessions up to the counter, each with its control file; control handles are on such sessions; clones own distinct control handles |
| ProtocolTheorems.AcceptIsSafe | src/planet/net/tcp/listen_op.cpp:44-72 | after every run, whatever an accept comes to, no established or listening socket is closed, and on success the table holds the new connection under the number read |
| ProtocolTheorems.AcceptSparesIff | src/planet/net/tcp/clone_op.cpp:74-90 | in any world, a successful accept spares every connected and listening socket exactly when the session it is about to get is not in use; an unsuccessful one always does |
| Scenarios.RemovalBreaksAccept | src/planet/net/tcp/session_dir_op.cpp:34-38 | a run from the start on which the directory of a session is removed under its open control handle, the session connects, and the next accept closes its connection |
| ProtocolTheorems.CallNumbers | src/planet/net/tcp/clone_op.cpp:74-90 | a call moves the counter by at most one, only past a session in use, and hands out only a number not in use |
| ProtocolTheorems.NumbersOverRuns | src/planet/net/tcp/clone_op.cpp:34-90 | over every run the numbers handed out start at 0 with steps of 0 or 1, the counter never decreases, and a number repeats only if its session was not in use |
| ProtocolTheorems.TwoOpensShareASession | src/planet/net/tcp/clone_op.cpp:74-90 | numbers do repeat: two opens of clone from the start with no connect in between both get session 0 |
| ProtocolTheorems.OpenCloseBalance | src/planet/fs_core.cpp:215-273 | an open gives a new handle number, open and close restore the live handles, and a failed open leaves them |
| ProtocolTheorems.FirstProbeThrows | src/planet/net/tcp/clone_op.cpp:65-83 | when the first probe throws the open fails with one handle number used up, and nothing else has changed |
| ProtocolTheorems.SecondProbeThrows | src/planet/net/tcp/clone_op.cpp:81-82 | when only the second probe throws, the open fails, two handle numbers are used up and nothing else changed |
| ProtocolTheorems.HandlesAreNotReused | include/planet/handle.hpp:48-65 | a handle that is not live is never live again, over any run |
| Readings.ReadOfCtl | src/planet/net/tcp/ctl_op.cpp:24-36 | a read through a control handle or its clone gives the number and a newline, once; then nothing; a buffer too small is an error that uses nothing up |
| Readings.SecondReadIsEmpty | src/planet/net/tcp/ctl_op.cpp:27-33 | after a read that gave text, a further one through either handle is at the end of the file |
| Readings.NumberIsToldOnce | src/planet/net/tcp/ctl_op.cpp:24-36 | over any run that does not close it, a control handle, with its clone, tells its number exactly once if some read has room for it, and nothing else |
| Readings.ReadOfListen | src/planet/net/tcp/listen_op.cpp:44-72 | what each way out of a listen read answers; only a read that tells a number uses the handle up, and one that is used up is at the end of the file |
| Readings.AcceptsOnce | src/planet/net/tcp/listen_op.cpp:51-71 | over any run that does not close it, a listen handle accepts at most once, and not again |
| Readings.WriteOfCtl | src/planet/net/tcp/ctl_op.cpp:117-122 | a write through a control handle or its clone is a request of its session, answered with the text's length exactly on success; a listen file refuses every write |
| Readings.OtherHandles | src/planet/fs_core.cpp:241-260 | reads and writes of any other open file leave the protocol's state alone; without a handle they throw |
| Conservation.SocketsAreConserved | src/planet/net/common.cpp:33-53 | over every run openings and closings balance, no socket has two owners, and the open sockets that neither the table nor a server file's handle holds are exactly those the calls stranded; there are none exactly when no call stranded one |
| Conservation.CallStrands | src/planet/net/tcp/listen_op.cpp:44-72 | after a call the sockets without an owner are those before it and the ones that it strands |
| Conservation.SetUpStrands | src/planet/net/tcp/common.cpp:19-43 | a setup strands the sockets it opens on its way, and gives the one it yields an owner |
| Scenarios.SmallReadStrands | src/planet/net/tcp/listen_op.cpp:62-63 | a run from the start: an accept is read into a buffer too small for the number, and its connection is the one socket without an owner |
| Scenarios.FailedBindStrands | src/planet/net/tcp/ctl_op.cpp:44-61 | a run from the start: an announcement cannot be bound, and its socket stays open without an owner |
| Scenarios.SecondAddressStrands | include/planet/net/tcp/client_op.hpp:49-60 | a run from the start: a client file for a host of two addresses is created, and the first address's socket stays open without an owner |
| PathKeys.PathKeysAreFiles | src/planet/net/tcp/server_op.cpp:74-91 | over every run a path is a key of the table exactly when a client or server file is at it |
| Files.ReplayMeaning | src/planet/basic_operation.cpp:18-35 | after any writes and truncations, each byte is that of the last write over it, or zero if the file was cut below it since |
| Files.StoreKeeps | src/planet/fs_core.cpp:215-260 | every call keeps each path on one file and each handle on a default file bound to one |
| Files.DataIsReplay | src/planet/fs_core.cpp:176-260 | over any run, a default file holds what the run's writes and truncations of it made, and nothing else changes it |
| Files.HandleKeepsFile | src/planet/fs_core.cpp:215-239 | a handle stands for one file until it is closed, over any run |
| Files.HandleReadsWhatWasWritten | src/planet/fs_core.cpp:78-260 | over any run that does not close it, a handle reads exactly what the last writes to its file left, through whatever handle, whatever was unlinked, removed or created in between |
| Files.SamePathSameFile | src/planet/fs_core.cpp:215-260 | handles opened on a path at two times share their file, as long as the path stayed in the tree |
| Files.NewFileIsAnother | src/planet/fs_core.cpp:55-99 | a path that comes back after its removal stands for a file of its own |
| Files.WriteThenRead | src/planet/fs_core.cpp:241-260 | a write counts its bytes, and every handle on the file reads them back |
| Handles.HandleManager.GetOpEntry | include/planet/handle.hpp:39-46 | an exception exactly for numbers never given out or taken back since; every other number gives its entry |
| Handles.HandleManager.RegisterOp | include/planet/handle.hpp:48-59 | the new number is one up and was not in the table |
| Handles.HandleManager.UnregisterOp | include/planet/handle.hpp:61-65 | a live handle is taken back for good, the others stay |
| Poller.FusePoller.RegisterNew | src/planet/fuse_poller.cpp:22-39 | the handle has an entry with the new poll handle and its earlier mask; every other entry stays in its place; handles stay distinct; a poll handle that is no longer held was destroyed |
| Poller.FusePoller.Unregister | src/planet/fuse_poller.cpp:41-52 | the handle is not polled any more; every other entry stays, in the same order; handles stay distinct |
| Poller.FusePoller.GetStatus | src/planet/fuse_poller.cpp:54-63 | 0 for a handle that is not polled, else the mask of its first entry |
| Poller.FusePoller.SweepEntry | src/planet/fuse_poller.cpp:90-96 | one entry of a sweep: when it is ready its poll handle is notified, then destroyed and forgotten, else it is kept; an invalid handle throws with the mask cleared |
| Poller.FusePoller.PollHandles | src/planet/fuse_poller.cpp:86-98 | a sweep throws exactly at the first invalid handle, and leaves the later entries untouched; each entry before it has its new mask, the poll handles of the ready ones are notified and after that destroyed, and no other poll handle is touched |
| PollMachine.StepKeeps | src/planet/fs_core.cpp:262-299 | each step of any interleaving keeps the poller's invariant |
| PollMachine.EveryInterleavingIsSafe | src/planet/fs_core.cpp:215-299 | so does every interleaving of sweeps, polls, opens that return or fail, and the three steps of closes |
| PollMachine.SafeFromTheStart | src/planet/fuse_poller.cpp:22-98 | from the start: polled handles are distinct and live, no sweep meets an invalid handle, poll handles are notified and destroyed at most once and in that order, and a status is the last mask |
| PollMachine.PollIsHarmlessIff | src/planet/fs_core.cpp:281-299 | after a poll some continuation has a sweep that meets an invalid handle, exactly when the polled handle was not open or had left the poller |
| PollMachine.LatePollIsHit | src/planet/fs_core.cpp:262-299 | a poll between the last two steps of a close makes a sweep meet an invalid handle |
| PollMachine.StatusIsLastMask | src/planet/fuse_poller.cpp:54-63 | a status read gives the mask of the last sweep of that handle since it entered the poller, or 0 |
| PollMachine.EveryPollHandleHasItsFate | src/planet/fuse_poller.cpp:22-98 | over every admissible run, a poll handle the kernel gave is held with no event, or was notified and then destroyed by a sweep that found its file ready, or destroyed when another poll replaced it, or dropped without an event when its file left the poller |
| Planet.Planet.constructor | include/planet/filesystem.hpp:26-42 | the start: root, default types, TCP types, and `/tcp` with its clone file |
| Planet.Planet.InstallTypes | include/planet/net/tcp/installer.hpp:31-45 | afterwards the registry routes every path by `Route` and knows every type name |
| Planet.Planet.Find | src/planet/fs_core.cpp:340-357 | the entry at a path, or null, as the world's tree says |
| Planet.Planet.Register | include/planet/handle.hpp:48-59 | registering an operation, as the machine does |
| Planet.Planet.Close | src/planet/fs_core.cpp:262-273 | release, then poller and handle table are left whether or not release threw; a clone closes its control handle; a connection is closed |
| Planet.Planet.CloseHandle | src/planet/fs_core.cpp:262-273 | a close keeps every polled handle live, also when it closes a clone with its control handle |
| Planet.Planet.Poll | src/planet/fs_core.cpp:281-299 | a poll handle registers the handle, and the status is its mask |
| Planet.Planet.Sweep | src/planet/fuse_poller.cpp:86-98 | a sweep between any two calls never throws and reaches every polled handle |
| Planet.Planet.InterpretRequest | src/planet/net/tcp/ctl_op.cpp:63-115 | the command chain over parser and table has exactly the effect and reply of the request machine |
| Planet.Planet.InstallSocket | src/planet/net/tcp/ctl_op.cpp:84-96 | a new socket takes the session's place, or the table stays when the kernel fails; the strays of the setup stay open in either case |
| Planet.Planet.WriteCtl | src/planet/net/tcp/ctl_op.cpp:117-122 | writing a control file |
| Planet.Planet.Write | src/planet/fs_core.cpp:251-260 | writing any handle: default files take the bytes, control and clone files interpret, listen files refuse |
| Planet.Planet.BuildHook | src/planet/net/tcp/session_dir_op.cpp:24-32 | the session's five creations with the types the registry gives them |
| Planet.Planet.MakeSessionDir | src/planet/net/tcp/clone_op.cpp:38-39 | the current session appears whole, or not at all |
| Planet.Planet.CreateOp | src/planet/net/tcp/clone_op.cpp:74-90 | create_op of clone: probe if the control file is there, and go on to the next number if in use |
| Planet.Planet.NextNumber | src/planet/net/tcp/clone_op.cpp:81-88 | two probes, each with a handle of its own that is closed again, then the counter |
| Planet.Planet.TargetCtlIs | src/planet/net/tcp/clone_op.cpp:65-72 | a probe leaves everything but the last handle number as it was, the poller included, also when its write throws |
| Planet.Planet.AskAndClose | src/planet/net/tcp/clone_op.cpp:69-71 | the request through an open control handle, which is closed whatever happens |
| Planet.Planet.OpenCloneOp | src/planet/net/tcp/clone_op.cpp:34-42 | make the session if it is not there, then open its control file |
| Planet.Planet.InitOp | src/planet/net/tcp/server_op.cpp:18-30 | what the open of each kind of file finds out, accepts or refuses |
| Planet.Planet.Open | src/planet/fs_core.cpp:215-239 | open with its re-entrant calls has exactly the net effect of the machine's open; the new handle is on the entry at the path, and every other handle keeps its own |
| Planet.Planet.OpenTheClone | src/planet/fs_core.cpp:222-228 | create_op of clone, registration and its open, around each other |
| Planet.PartsMakeClone | src/planet/net/tcp/clone_op.cpp:34-90 | the three parts of opening clone, around the registration of its own handle, add up to the machine's one step |
| Planet.AcceptByParts | src/planet/net/tcp/listen_op.cpp:54-72 | accept, open clone, read it, close it, insert: the parts add up to the machine's one step |
| Planet.Planet.ReadCtl | src/planet/net/tcp/ctl_op.cpp:24-36 | the number once, then nothing; a small buffer is an error that uses nothing up |
| Planet.Planet.Read | src/planet/fs_core.cpp:241-249 | reading any handle: default files give their bytes, all others the machine's effect and result |
| Planet.Planet.OpenNewSession | src/planet/net/tcp/listen_op.cpp:22-29 | open clone, read its number, close it: only the new session stays |
| Planet.Planet.AcceptInto | src/planet/net/tcp/listen_op.cpp:54-72 | what follows an accept, on every way out |
| Planet.Planet.ReadListen | src/planet/net/tcp/listen_op.cpp:44-72 | accept into a new session; the accepted socket is closed again when anything throws |
| Planet.Planet.ReadBytes | src/planet/basic_operation.cpp:18-26 | reading a default file through its handle, whether or not its entry is still in the tree |
| Planet.Planet.WriteBytes | src/planet/basic_operation.cpp:28-35 | the bytes of the entry behind the handle, and of no other; the protocol state stays |
| Planet.Planet.Truncate | src/planet/fs_core.cpp:176-184 | looks the path up, then cuts its file or fills it with zeros; an error code when nothing is there, an exception for a directory |
| Planet.Planet.Mknod | src/planet/fs_core.cpp:48-76 | a client connects and a server listens, or the file does not stay; success exactly when the file is there |
| Planet.Planet.Mkdir | src/planet/fs_core.cpp:101-127 | a directory of the type its path is routed to; `/tcp` brings its clone file |
| Planet.Planet.Unlink | src/planet/fs_core.cpp:78-99 | control, data and clone files refuse with an error code, and only they; without a file it throws; a client's or server's socket goes with its file; no file's bytes and no handle change |
| Planet.Planet.Rmdir | src/planet/fs_core.cpp:129-147 | throws exactly for `/tcp` and without a directory; a session's socket goes with its directory; no file's bytes and no handle change |
| Planet.Planet.SlotsFollow | src/planet/fs_core.cpp:215-239 | after a call every handle on a default file is on the entry of the file it is bound to |
| Planet.Planet.Serve | src/planet/fs_core.cpp:48-273 | every allowed call moves the running system, protocol and files, as the machine moves, and answers a read or write as the machine says |
| Planet.Planet.ServeAll | src/planet/fs_core.cpp:48-273 | every run of allowed calls takes the running system exactly where it takes the machine, so the theorems about runs, of the protocol and of files, hold of it |

## Left out

- Boost's special reading of a root name in `//name`, and its comparison of paths with repeated slashes: paths are compared as strings, and protocol calls take plain paths.
- The counter's overflow: it is unbounded here. Beyond the range of int the control file's cast throws, as modelled.
- Running out of memory between incrementing the counter and returning from create_op (the decrement in its finalizer), and inside register_ops (its catch clause).
- The kinds of exceptions, and errno values other than those the protocol tests for.
- The choice among addresses, and keepalive's option values. How many sockets a setup leaves open, and which of them connected, is up to the kernel's answers.
- fd_table::clear, which forgets descriptors without closing them, and uninstal_all, which runs at exit.
- Staleness of the socket number that data, local, remote and client handles cache.
- Socket input and output, polling through pselect, addresses as text: what sockets and address files give is `Elsewhere`.
- Reading an address file rewrites the bytes of its own entry; `Files` speaks of the bytes of default files only.
- DNS, ethernet, ip and module types; a path they claim is routed to the defaults here. The start has `/tcp` only; the other directories of the program's start can be made by the run.
- Timestamps, owners, modes, link counts, chmod, chown, utimens, getattr and readdir.
- FUSE callbacks, logging and option parsing.
- Operation objects are values inside the handle table, and the counter of the clone type is a field of the system; the code has one shared object per handle and per type.
- The force flag of unlink and rmdir is in `FlatTree` and `FileSystem` only; clients of the protocol never set it.
- The polling thread: in `Planet` a sweep runs between two calls. The finer interleavings, with close in three steps and a sweep entry by entry, are in `PollMachine`, whose file system is reduced to the live handles.
- Which operation is released by a concurrent close while another thread is inside it: handles are read and used in one step.
- Booleans returned by remove_entry, register_new and unregister, which are computed from iterators after the change.
- Polling a null poll handle, and notifying one, which has no effect.
- Hooks that remove entries or catch exceptions: no type of the program does.
- FileSystem.RemoveEntry: says what goes and what stays; that it stays in order is in RemoveKeepsOrder.
- FileSystem.FileSystem.AddEntry: takes a name that is absent in its directory (see the hypotheses); so do CreateEntry, CreateUnder and ExecuteHook.
- FileSystem.Entry.Truncate: models the resize only, because the lookup before it is in Planet.Truncate.
- Planet.Planet.constructor: installs the TCP types only, and makes `/tcp` only, because the other installers are left out.
- Planet.Planet.Mknod: takes names that are absent, because the code does not look for an existing one (see the hypotheses).
- Planet.Planet.Serve: takes what the machine allows (see the hypotheses), because the code relies on it.
- Planet.Planet.Mkdir: does not take session paths, because sessions are made by clone only.
- Modular arithmetic of size plus offset: lengths are unbounded naturals.

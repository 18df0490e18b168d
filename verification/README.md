# A verified model of the metadata-cluster simulator

The simulator compares ways of spreading a file system's metadata over a cluster of servers (MDS). One process, the
monitor (MON), hands out ranks; clients send requests to a server, which executes them, forwards them to the owning
rank, or gathers its answer from several ranks. Which rank owns a path is decided by one of three dispatchers: subtree,
hashing or hybrid. Everything is one synchronous program: a send runs the receiver's handler before it returns, and
handlers send again.

This project models that program from the path splitter up to a whole simulation, and proves that the cluster is
transparent: for any number of clients making any interleaved calls, under every strategy, each answer is the one a plain
file system without servers, messages, caches and routes would give (`Simulation.Simulate`, `Clients.RunAll`). With the
client cache off this holds for every run. With the cache on it holds for runs of cache-safe calls, and cache-safe is
exact: after any other call its own client's next lookup of that path is answered wrongly (`Clients.IssueThenStat`). That
plain file system is what the source's own inode objects do when called directly (`Reference.AskAll`,
`Simulation.SideBySide`). The layers below are proved on the way, most of them in more generality than the top needs.

`dafny verify dfyconfig.toml` checks the whole project.

## How it is organised

| file | stands for |
|---|---|
| `Collections`, `Paths` | sorted map keys and counting; `common/util.cc` |
| `Namespace`, `Emptying`, `FileSystem`, `FileLaws` | `fs/FileSystem.{h,cc}`: the inode tree as a value with its laws, the erase loop on values, the mutable inode objects proved against both, and what each call does to what paths show |
| `LruSpec`, `LRUCache` | `include/LRU.h`: the recency list and its laws, and the list-and-map class proved against it |
| `Ports`, `Network`, `Topology`, `Lending` | `cluster/network/Network.cc`, `cluster/Host.cc`: ports of one host, the class that keeps them, and reverse ports over all hosts and all nested runs |
| `Placement`, `DispatchLaws`, `Dispatcher` | `cluster/services/mds/MetadataDispatcher.cc`, `global/global_disp.cc`: what the dispatchers mean, strategy by strategy, and the loops that compute it |
| `Registry`, `Startup` | registration with the monitor: the resulting state, and the handlers that exchange the messages |
| `Gather`, `Protocol`, `Cluster` | `cluster/services/MDSService.cc`: scatter and gather as multisets, what each request does, and the handlers over nested sends |
| `CacheReads`, `Coherence` | which keys a client's lookup reads from its cache, which can be hits at all, and what changes of the tree do to caches |
| `Routes`, `RouteLaws`, `ClientSpec`, `Client` | `cluster/process/ClientProcess.cc`: route lookup and what it saves, what a client knows and why it stays right, and its operations |
| `PlainFs`, `Reference`, `Transparency`, `Simulation` | the plain file system used as reference, its agreement with the objects of `FileSystem`, the connection to it, and a simulation from an empty cluster to its answers |

Reading the contracts:

- An inode's address is a number (`Ino`), handed out in creation order. `Namespace.Valid` says that children are younger
  than their parent, name it, and are listed once. `Grows` is what any run of mknod, mkdir and write does to a tree.
- A cache of capacity k can only answer for paths that are read after fewer than k other keys, so for canonical paths of
  fewer than k components. A cache is right (`Coherent`) when it agrees with the tree on those. A call is `CacheSafe` when
  its path has at least k components, or it neither takes anything away nor makes a second file of a name.
- `Spells(path, cs)` says that `path` is the canonical path of the component list `cs`, or the `//name` that the servers
  build for a child of the root.
- `FileLaws.Look` is what a path shows: identity, kind, content and entry names. The laws of `FileLaws` describe every call
  by it alone.
- `Perform` is what one server does with a request it executes, `Serve` adds the reply's effect on the client, and `Route`
  adds the forwarding decision. The handlers of `Simulator.Cluster` have these as their whole effect; `Route` counts
  executions (`executed`) and delivered messages (`delivered`).
- `Booted(cfg)` is the state registration leaves: active ranks 0 to n - 1, every server knows its rank and the
  monitor's map, and service ports lie below the first reverse port. `Starting.Startup.Boot` establishes it.

## Where the code does less than one might expect

Each of these is proved as an if-and-only-if, or shown on a concrete path:

- A gathered listing is the directory exactly when nobody else was asked, or the directory and all children have a rank:
  a child without one is listed by every server involved (`Gather.ListingIsDirectory`). On existing canonical paths every
  child has a rank (`Transparency.ChildOwned`), so clients never see it.
- `mknod` does not look for a sibling of the same name. What it returns is what the path names afterwards exactly when the
  name was new (`Coherence.MknodCoherent`). A client that makes a second file of a name finds the new one, exactly when
  the cache is on and the path has fewer components than the capacity (`Clients.IssueThenStat`).
- `rm` and `rmdir` invalidate no cache. A cache stays right exactly when it can answer for no path through the removed
  inode (`Coherence.RemovalCoherent`). The removing client has just looked that inode up, and finds it again, exactly
  when the cache is on and the path has fewer components than the capacity (`Clients.IssueThenStat`).
- The server that executes a `mkdir` need not own the new directory, so the route its reply teaches may be stale. Exact
  conditions: `Placement.MkdirTop`, `Placement.MkdirSecond`, `Placement.MkdirDeep`. A route learned about a path that
  already exists is never stale (`ClientSpec.ReplyTeaches`, `ClientSpec.ServeKeepsExact`).
- A service is given the first reverse port at some point of a history of starts and stops exactly when more than 100
  services are live at once (`Ports.TakenExactly`). Replies to that port then go to the service (`Ports.FirstReply`).
- A send that nests another send of the same process to completion loses its reverse port (`Lending.LostPort`).
  `Lending.ReplySafety` says exactly in which frames of which runs a reply finds its sender; the handlers of
  `Simulator.Cluster` and `Starting.Startup` only reply in such frames.
- `..` is resolved on the text, so it also finds its way out of a directory that does not exist
  (`Namespace.DotDotIgnoresTheTree`). `Namespace.LookupJoined` is the law for all paths; it is a lookup below the first
  part exactly as far as the second does not climb out of it (`Namespace.LookupConcat`).

## Model

| member | source | states |
|---|---|---|
| `Simulation.Simulate` | SubtreeVSHashingSim.cc:132-163 | From nothing: start the monitor and any servers, build the dispatchers, connect any clients, let them make any calls in any interleaving; every answer agrees with the plain file system, for each strategy and any hash: all calls with the cache off, and all cache-safe calls with a cache of any capacity from 1 |
| `Simulation.SideBySide` | fs/FileSystem.cc:58-134 | The same calls made to a simulated cluster and directly to file-system objects get agreeing answers |
| `Reference.AskAll` | fs/FileSystem.cc:58-134 | A run of calls made on the mutable file-system objects gives exactly the answers and the tree of `PlainFs`, so the reference is the source's own file system |
| `Simulation.StartServers` | SubtreeVSHashingSim.cc:136-152 | After starting the monitor and a list of servers, the k-th server has rank k and everybody agrees on the map |
| `Clients.RunAll` | cluster/process/ClientProcess.cc:192-330 | Any sequence of calls by any connected clients answers like the plain file system and leaves the same tree (with the cache on: any sequence of cache-safe calls); without removals all learned routes stay exact |
| `Clients.IssueThenStat` | cluster/process/ClientProcess.cc:181-330 | A client makes any call and then looks its path up: the answer is the tree's exactly when the cache is off or the call was cache-safe. After a successful removal below the root it is the removed inode exactly when the cache is on and the path has fewer components than the capacity; after a second mknod of a name it is the new inode under the same condition |
| `Clients.WriteThenRead` | fs/FileSystem.cc:95-107 | What one client writes to a path any client then reads there, and what it reads at any other path is what was there before; the write succeeds exactly when the path exists |
| `Clients.MkdirThenLsdir` | cluster/process/ClientProcess.cc:271-303 | One client's mkdir succeeds exactly when the parent exists and the name is free; any client then lists the new directory as empty, its parent with the name added, and any other directory as before |
| `Clients.ClientProcess.SendRequest` | cluster/process/ClientProcess.cc:155-179 | Nothing is sent without a path and an inode; otherwise the request, removals included, goes first to the rank of the longest learned cut of the normalised path under subtree, and to the dispatcher's answer for that path under the other strategies, or to rank 0 when that is -1; it has exactly the effect of `Route`, goes straight to the owner when the path exists and its route is learned or computed, and leaves all caches right if it keeps caches |
| `Clients.ClientProcess.LookupOne` | cluster/process/ClientProcess.cc:181-190 | The answer and the new cache are those of one `Fetch`: a hit when the cache is on, else what the tree has, stored if there is anything; right caches stay right |
| `Clients.ClientProcess.LookupPath` | cluster/process/ClientProcess.cc:192-223 | For any string and any cache: the answer and the new cache are those of reading the root, each prefix cut at a later slash, and the path, up to the first that finds nothing. Through a right cache it succeeds exactly if all of these exist, with the tree's inode |
| `CacheReads.CanonicalLookup` | cluster/process/ClientProcess.cc:192-223 | On canonical paths that stepwise lookup is the file system's own lookup |
| `CacheReads.FetchAllRight` | cluster/process/ClientProcess.cc:192-223 | A lookup through a cache that is right on the keys that can be read, or with the cache off, answers what the tree answers, and leaves the cache right |
| `CacheReads.DeepMisses` | include/LRU.h:18-42 | A key that is read after at least capacity others is never a hit |
| `CacheReads.DepthOfJoin` | cluster/process/ClientProcess.cc:201-218 | The canonical path of n components is read after exactly n other keys |
| `CacheReads.ComponentsBound` | cluster/process/ClientProcess.cc:201-218 | Any string is read after at least as many keys as it has components |
| `CacheReads.KeysInOrder` | cluster/process/ClientProcess.cc:201-222 | A lookup reads the root first, then exactly the prefixes that end before a later slash, each longer than the one before, and the path last |
| `CacheReads.FetchAllFresh` | include/LRU.h:18-42 | After a lookup that found its path and whose keys fit into the cache, all of them are cached |
| `CacheReads.AllHits` | cluster/process/ClientProcess.cc:181-190 | When all keys of a lookup are cached it asks no server and answers whatever is cached under the path |
| `Clients.ClientProcess.Mknod` | cluster/process/ClientProcess.cc:235-242 | Same success and same tree as creating the file directly. All caches are right afterwards exactly when the cache is off, the name was new, or the path has at least capacity components; otherwise this client's next lookup of the path answers the new inode |
| `Clients.ClientProcess.Mkdir` | cluster/process/ClientProcess.cc:271-277 | Same success and same tree as creating the directory directly, which `FileLaws.MakeDirLaw` describes |
| `Clients.ClientProcess.StatPath` | cluster/process/ClientProcess.cc:315-330 | What exist, is_file and is_dir look up: whatever the cache makes of the path, and through a right cache what the tree holds |
| `Clients.ClientProcess.Read` | cluster/process/ClientProcess.cc:252-261 | The content of the named inode, or failure exactly when there is none |
| `Clients.ClientProcess.Write` | cluster/process/ClientProcess.cc:263-269 | Same success and same tree as writing the inode directly, which `FileLaws.WriteLaw` describes |
| `Clients.ClientProcess.Rm` | cluster/process/ClientProcess.cc:244-250 | Same success and same tree as removing directly. All caches are right afterwards exactly when the cache is off, nothing was removed, or the path has at least capacity components; otherwise this client's next lookup of the path answers the removed inode |
| `Clients.ClientProcess.Rmdir` | cluster/process/ClientProcess.cc:279-285 | The same, and it fails on anything but a directory |
| `Coherence.FoundSticks` | cluster/process/ClientProcess.cc:71-84 | A path of fewer than capacity components that has been found and then touched by a reply is answered from the cache from then on, whatever the tree |
| `Coherence.StoredSticks` | cluster/process/ClientProcess.cc:71-82 | So is one that a reply has stored after its directory was found |
| `Coherence.DeepRemoval` | fs/FileSystem.cc:41-56 | Removing a path of at least capacity components makes nothing wrong that can be read from any cache |
| `Transparency.UnsafeIsWrong` | cluster/process/ClientProcess.cc:235-285 | After a successful removal below the root the path does not name the removed inode, and after a second mknod not the new one; such a call is cache-safe exactly when its path has at least capacity components |
| `Coherence.RemovedIsGone` | fs/FileSystem.cc:41-56 | The canonical path of a removed inode no longer resolves to it, and resolves to nothing when no sibling has its name |
| `Clients.ClientProcess.Lsdir` | cluster/process/ClientProcess.cc:287-303 | Succeeds exactly on existing directories, with that directory's names as a multiset |
| `Routes.FindRoute` | cluster/process/ClientProcess.cc:106-148 | Normalises the ends of the path; hashing and hybrid ask the dispatcher, subtree takes the longest known prefix |
| `Routes.LongestKnown` | cluster/process/ClientProcess.cc:126-147 | The rank of the longest key that is the whole path or ends before a later slash, else the entry for "/", else -1 |
| `RouteLaws.NormalLaw` | cluster/process/ClientProcess.cc:112-115 | Of any string the normalised path is rooted, loses trailing slashes only, keeps none unless it is the root, and names the same components and the same inode |
| `RouteLaws.AlongLongestCut` | cluster/process/ClientProcess.cc:126-178 | Under subtree the first server is the one of the longest learned cut; a request for an existing path is not forwarded exactly when that is the path's owner, and costs one message more otherwise |
| `RouteLaws.RouteOfDirectoryServes` | cluster/process/ClientProcess.cc:132-147 | A client that has learned the exact route of a directory goes straight to the owner of anything in it that it has not asked about, unless that is a directory of depth one or two |
| `ClientSpec.ServeKeepsAll` | cluster/process/ClientProcess.cc:71-93 | Serving any request leaves a valid tree and every client able to send, with its routes within the active ranks |
| `ClientSpec.ServeKeepsRight` | cluster/process/ClientProcess.cc:71-93 | Serving one client's request that keeps caches makes no client's cache wrong |
| `ClientSpec.ReplyIsTrue` | cluster/services/MDSService.cc:201-247 | Whatever inode a successful reply carries, the tree has it at the reply's path, unless mknod made a second inode of a name |
| `ClientSpec.AbsorbOk` | cluster/process/ClientProcess.cc:71-93 | Taking in a reply leaves the cache within its capacity and the routes within the active ranks; only the reply's path gets a new route |
| `ClientSpec.AbsorbRight` | cluster/process/ClientProcess.cc:81-84 | A right cache stays right if the reply's inode is at the reply's path, or that path cannot be read from the cache |
| `Coherence.MknodCoherent` | fs/FileSystem.cc:80-86 | A created inode is what its path names afterwards exactly when the path named nothing before |
| `Coherence.RemovalCoherent` | cluster/process/ClientProcess.cc:244-250 | A right cache is right after a removal exactly when no path that can be read from it goes through the removed inode, whether or not siblings share its name |
| `CacheReads.CoherentGet` | cluster/process/ClientProcess.cc:225-228 | A hit under a key that can be read is what the tree holds there, and reading keeps a right cache right |
| `CacheReads.CoherentSet` | cluster/process/ClientProcess.cc:81-84 | Storing what the tree holds, or under a key that cannot be read, keeps a right cache right, evictions included |
| `ClientSpec.DispatchStable` | cluster/services/mds/MetadataDispatcher.cc:67-139 | Under every strategy the owner of an existing canonical path is unchanged by any run of mknod, mkdir and write |
| `ClientSpec.ReplyTeaches` | cluster/process/ClientProcess.cc:78-79 | A successful reply about an existing path leaves the client with that path's owner as its route |
| `ClientSpec.ServeKeepsExact` | cluster/process/ClientProcess.cc:126-131 | Learned routes of existing paths stay exact whatever request any client makes next in a run without removals |
| `ClientSpec.RouteKeeps` | cluster/services/MDSService.cc:101-159 | Forwarded or not, a request that removes nothing only lets the tree grow, leaves every client able to send, and keeps all learned routes exact |
| `ClientSpec.RouteKeepsAll` | cluster/services/MDSService.cc:101-159 | Any request, removals included, leaves every client able to send, and all caches right if it keeps caches |
| `ClientSpec.RequestReady` | cluster/process/ClientProcess.cc:177-178 | The routed rank, and root_mds without a route, are active; for existing paths with a learned or computed route it is the owner |
| `ClientSpec.ExecutorOwns` | cluster/services/MDSService.cc:106-113 | A request for an existing path is executed by that path's owner, wherever it arrives first |
| `Transparency.ChildOwned` | cluster/services/mds/MetadataDispatcher.cc:67-139 | Every entry of an existing directory, spelled as the servers spell it, has an active owner under every strategy |
| `Transparency.ListingComplete` | cluster/services/MDSService.cc:284-318 | The gathered listing of an existing directory is a permutation of its entries, whichever server was asked first |
| `Transparency.ListingArrived` | cluster/process/ClientProcess.cc:71-93 | After a listing the client's callback list is exactly that permutation |
| `Transparency.DeepDirectoryIsLocal` | cluster/services/MDSService.cc:249-318 | Under subtree, LISTDIR and RMDIR of an existing directory at depth two or more send no slave request: the executing server counts every entry itself |
| `Transparency.WorkIsDirectory` | cluster/services/MDSService.cc:249-358 | LISTDIR and RMDIR of an existing directory make the servers count its entries once each in total, under every strategy and wherever the request went first |
| `PlainFs.PlainGrows` | fs/FileSystem.cc:80-124 | Every call of the reference file system leaves a valid tree, and all but removals one that has only grown |
| `Gather.OthersExact` | cluster/services/MDSService.cc:290-301 | The ranks asked are exactly the other owners, none twice, never the asking server |
| `Gather.OthersInOrder` | cluster/services/MDSService.cc:290-301 | They are asked in the order in which they first appear among the children |
| `Gather.OwnInOrder` | cluster/services/MDSService.cc:292-297 | A server answers its children in directory order: for a directory in two parts, those of the first part and then those of the second |
| `Gather.ListingBlocks` | cluster/services/MDSService.cc:307-318 | The listing is the master's children followed, server by server in the order of asking, by theirs |
| `Gather.GatherExact` | cluster/services/MDSService.cc:284-358 | At the directory's own server each child with a rank is listed once, and each without one once per server involved |
| `Gather.ListingIsDirectory` | cluster/services/MDSService.cc:161-187 | The listing is the directory exactly when nobody else is asked, or the directory and every child have a rank |
| `Gather.WorkAddsUp` | cluster/services/MDSService.cc:254-278 | If every child has a rank, the counts of the master and of the servers it asks sum to the directory's size |
| `Gather.FewAsked` | cluster/services/MDSService.cc:290-301 | At most n - 1 servers are asked when n are active |
| `Protocol.BoundedTraffic` | cluster/services/MDSService.cc:101-318 | One operation delivers at most 2(n - 1) + 3 messages and is executed once, at the owning rank (or where it arrived, if no rank owns it) |
| `Protocol.PerformKeepsTree` | cluster/services/MDSService.cc:123-150 | Every request leaves a valid tree; all but RM and RMDIR only let it grow |
| `Protocol.LendingIsInvisible` | cluster/Host.cc:62-68 | Lending the sender a port changes no message's receiver, and an answer to that port finds the sender |
| `Simulator.Cluster.Send` | cluster/Host.cc:56-80 | A send delivers to whoever serves or holds the target, has that message's effect, and afterwards no process that sent meanwhile holds a port; without a target nothing happens |
| `Simulator.Cluster.Receive` | cluster/network/Network.cc:80-98 | The message reaches the service at the port, else the holder of the reverse port, and has its effect |
| `Simulator.Cluster.HandleClientRequest` | cluster/services/MDSService.cc:101-159 | Executed here when the path is this rank's or nobody's, else forwarded once to its owner, never again; one execution and at most one reply |
| `Simulator.Cluster.HandleOpLookup` | cluster/services/MDSService.cc:209-221 | Replies with the inode at the path; fails without a reply when there is none |
| `Simulator.Cluster.HandleOpCreate` | cluster/services/MDSService.cc:201-207 | The new inode is in the tree and in the reply; an invalid name fails without a reply |
| `Simulator.Cluster.HandleOpMkdir` | cluster/services/MDSService.cc:242-247 | As above, and an existing name fails too |
| `Simulator.Cluster.HandleOpRead` | cluster/services/MDSService.cc:223-228 | The reply carries the content, the tree is unchanged |
| `Simulator.Cluster.HandleOpWrite` | cluster/services/MDSService.cc:230-234 | Exactly one inode's content changes |
| `Simulator.Cluster.HandleOpRm` | cluster/services/MDSService.cc:236-240 | The inode is removed and the client told |
| `Simulator.Cluster.HandleOpListdir` | cluster/services/MDSService.cc:284-318 | The reply lists this server's children followed by what each other owner answered |
| `Simulator.Cluster.HandleOpRmdir` | cluster/services/MDSService.cc:249-282 | The other owners are asked first, then the directory is removed and the client told |
| `Simulator.Cluster.SplitChildren` | cluster/services/MDSService.cc:290-301 | The loop keeps the children this rank answers for and notes the other owners in order of appearance |
| `Simulator.Cluster.AskOthers` | cluster/services/MDSService.cc:307-315 | Each noted server is asked once; callback_inolist is cleared before and added after each, so the answers come in order and nothing stale is included |
| `Simulator.Cluster.AskOne` | cluster/services/MDSService.cc:189-199 | One slave request: into the cleared callback list arrive exactly the children the asked server owns, or nothing when nobody owns the directory, and that server's count is recorded |
| `Simulator.Cluster.HandleSlaveRequest` | cluster/services/MDSService.cc:161-187 | True and silent when the directory is this rank's or nobody's; otherwise an answer to the asking server with the children this rank owns, and false without an answer for a file or another operation |
| `Simulator.Cluster.OwnChildren` | cluster/services/MDSService.cc:339-358 | The loop selects exactly the children this rank answers for |
| `Lending.ReplySafety` | cluster/Host.cc:56-80 | In every nested run, the port of an active send leads to its sender exactly when an unspent send of that process holds that port; so always when no nested send by that process has returned |
| `Lending.LostPort` | cluster/Host.cc:75-77 | The converse happens: a process that sends inside its own send, which returns, no longer receives at its port |
| `Lending.NothingLentAtRest` | cluster/Host.cc:77-77 | When no send is active, no reverse port is lent on any host |
| `Lending.Exec` | cluster/Host.cc:56-80 | After any nested run of sends: the active ones are as many as calls not returned, every unspent one holds its port on its own host, every lent port is held by an unspent send of its holder, and below a spent send all sends of that process are spent |
| `Lending.CallSound` | cluster/Host.cc:62-68 | Entering a send keeps the invariant between the stack of active sends and the lent ports |
| `Lending.ReturnSound` | cluster/Host.cc:77-79 | So does returning from one |
| `Lending.SendLeaves` | cluster/Host.cc:62-79 | One whole send, nested sends included, leaves lent exactly what was lent before to processes that did not send |
| `Ports.FreeDownFinds` | cluster/network/Network.cc:13-18 | Searching downward over one place more than is taken always finds a free one |
| `Ports.PortsFound` | cluster/network/Network.cc:48-60 | So no registration fails, and new ports collide with none |
| `Ports.ServicePortsBelowPeak` | cluster/network/Network.cc:9-36 | Over any history of starts and stops each service port is below the peak number of live services |
| `Ports.NoShadow` | cluster/network/Network.cc:88-98 | While that peak is at most 100, dispatch never takes a lent port for a service |
| `Ports.TakenExactly` | cluster/network/Network.cc:9-36 | Over any history of starts and stops some service is given port q at some time exactly when more than q services were live at once; for the first reverse port, when a 101st was |
| `Ports.LentPortAnswers` | cluster/network/Network.cc:65-98 | A port lent to a process leads back to it exactly when no other process serves at it; nobody else's port is affected |
| `Ports.FirstReply` | cluster/network/Network.cc:44-98 | On a host that has lent nothing, a reply reaches the sender exactly when no other process serves at port 100 |
| `NetworkLayer.Network.RegisterService` | cluster/network/Network.cc:9-27 | The downward loop finds a free port, and only that entry is added |
| `NetworkLayer.Network.UnregisterService` | cluster/network/Network.cc:29-36 | Removes that entry only, and says whether it was there |
| `NetworkLayer.Network.FindProcRev` | cluster/network/Network.cc:38-42 | The lowest port lent to the process, or -1 when it has none |
| `NetworkLayer.Network.RegisterProcRev` | cluster/network/Network.cc:44-63 | A free port from 100 up, and only that entry is added |
| `NetworkLayer.Network.FindOrRegisterRev` | cluster/network/Network.cc:65-69 | The port already lent, or a new one |
| `NetworkLayer.Network.UnregisterProcRev` | cluster/network/Network.cc:71-78 | Removes that entry only, and says whether it was there |
| `Placement.LutPartition` | cluster/services/mds/MetadataDispatcher.cc:22-37 | Each active rank is in its own host's vector and no other; vectors are non-empty, strictly ascending, and hold active ranks only |
| `Dispatchers.MetadataDispatcher.BuildLut` | cluster/services/mds/MetadataDispatcher.cc:22-46 | One pass over the monitor's list, from a cleared table, yields that partition |
| `Dispatchers.MetadataDispatcher.WhichChild` | cluster/services/mds/MetadataDispatcher.cc:48-59 | The position of the first entry with the path's last name, or -1 |
| `Placement.WhichChildMeaning` | cluster/services/mds/MetadataDispatcher.cc:48-59 | On canonical paths it is the last component's position in the directory the other components name |
| `Placement.DirOfShorter` | cluster/services/mds/MetadataDispatcher.cc:71-71 | dirname drops a name character, which is why the recursion of subtree dispatch ends |
| `Dispatchers.MetadataDispatcher.SubtreeDispatch` | cluster/services/mds/MetadataDispatcher.cc:67-100 | Terminates on every string and computes the subtree rank |
| `Placement.SubtreeMeaning` | cluster/services/mds/MetadataDispatcher.cc:67-100 | On canonical paths, existing or not, that is the rank of the deepest directory on the path |
| `Placement.SubtreeTotal` | cluster/services/mds/MetadataDispatcher.cc:67-100 | It is always an active rank, never -1 |
| `Placement.SubtreeLocal` | cluster/services/mds/MetadataDispatcher.cc:85-97 | From depth two on every child of a directory, existing or not, has the directory's own rank |
| `Placement.SubtreeStable` | cluster/services/mds/MetadataDispatcher.cc:67-100 | The owner of an existing path does not change while the tree grows |
| `Placement.MkdirTop` | cluster/services/mds/MetadataDispatcher.cc:78-84 | The owner of a new top-level directory is unchanged by its creation exactly when its position selects a host whose first rank is 0 |
| `Placement.MkdirSecond` | cluster/services/mds/MetadataDispatcher.cc:85-97 | At depth two, exactly when its position selects the first rank of the host again |
| `Placement.MkdirDeep` | cluster/services/mds/MetadataDispatcher.cc:85-97 | From depth three on, always |
| `Dispatchers.MetadataDispatcher.HashingDispatch` | cluster/services/mds/MetadataDispatcher.cc:102-107 | -1 exactly for the empty path or without servers; else from 0 to n - 1, an active rank when those are the ranks, and n divides its difference from the hash |
| `Dispatchers.MetadataDispatcher.HybridDispatch` | cluster/services/mds/MetadataDispatcher.cc:109-139 | Computes the hybrid rank of any string |
| `Placement.HybridMeaning` | cluster/services/mds/MetadataDispatcher.cc:109-139 | On canonical paths: -1 exactly when the top-level name does not exist, else a rank of the host serving it, hashed below depth one |
| `Placement.DispatchRange` | cluster/services/mds/MetadataDispatcher.cc:67-139 | On every string each strategy answers an active rank or -1 |
| `Placement.DispatchExisting` | cluster/services/mds/MetadataDispatcher.cc:67-139 | For existing canonical paths never -1 |
| `Placement.HostAffinity` | cluster/services/mds/MetadataDispatcher.cc:85-139 | Subtree and hybrid keep everything under one top-level directory on one host |
| `DispatchLaws.DispatchSubtree` | cluster/services/mds/MetadataDispatcher.cc:67-100 | The configured subtree dispatcher: what is no directory has the rank of its dirname, the root 0, a top-level directory its host's first rank, a deeper one the rank of that host that the position of its second name selects |
| `DispatchLaws.DispatchHashing` | cluster/services/mds/MetadataDispatcher.cc:102-107 | The configured hashing dispatcher: n divides the difference of hash and rank, and two paths share a server exactly when n divides the difference of their hashes |
| `DispatchLaws.DispatchHybrid` | cluster/services/mds/MetadataDispatcher.cc:109-139 | The configured hybrid dispatcher: -1 exactly when the top-level name does not exist; at depth one its host's first rank; below, for existing paths or not, the rank at a position of that host's vector congruent to the hash modulo its length |
| `DispatchLaws.TopHostLaw` | cluster/services/mds/MetadataDispatcher.cc:78-96 | The host serving a top-level name has as many hosts of the table below it as the position of the name in the root, up to a multiple of the number of hosts |
| `DispatchLaws.NoPathNoRank` | cluster/services/mds/MetadataDispatcher.cc:69-111 | No strategy has a rank for the empty path |
| `Dispatchers.MetadataDispatcher.DispatchByConf` | global/global_disp.cc:16-33 | The dispatcher picked by the configured strategy computes `Dispatch` |
| `Registry.NewRankIsFree` | cluster/services/MONService.cc:28-36 | add_mds picks the smallest free rank even from a list with holes |
| `Registry.EnrolledAgreed` | cluster/services/MONService.cc:76-97 | Registering one more server keeps the agreement: ranks are 0 to n, each server at its rank knows it, and all have the monitor's list |
| `Registry.InformingFacts` | cluster/services/MONService.cc:87-94 | The broadcast reaches every listed server and changes no other |
| `Registry.RootMdsLaw` | cluster/process/ClientProcess.cc:20-36 | The root server a client takes from a list has the least rank on it; an empty list changes nothing |
| `Starting.Startup.AddMds` | cluster/services/MONService.cc:24-43 | The loop finds that rank and adds that entry only |
| `Starting.Startup.HandleMdsRegister` | cluster/services/MONService.cc:76-97 | Rank, acknowledgement and broadcast with its acknowledgements leave exactly the enrolled state |
| `Starting.Startup.Broadcast` | cluster/services/MONService.cc:87-94 | Every listed server ends up with the list, at two messages each |
| `Starting.Startup.HandleFindMds` | cluster/services/MONService.cc:70-74 | The asking client receives the list and the root server; false exactly when there is none |
| `Starting.Startup.RegisterService` | cluster/network/Network.cc:9-27 | A starting service is registered, and nothing else changes, at the port that `NetworkLayer.Network.RegisterService` finds for its host's services |
| `Starting.Startup.StartMds` | cluster/services/MDSService.cc:30-45 | Starting a server, before or after clients connect, gives it the next rank and brings the monitor and all servers into agreement, with two messages and two more for every server now on the list |
| `Starting.Startup.Connect` | cluster/process/ClientProcess.cc:95-104 | A client that connects knows the active list and rank 0, for two messages, and connecting again does nothing; it fails exactly when no server is active |
| `Starting.Startup.Boot` | SubtreeVSHashingSim.cc:154-155 | With a server active, the tables built for any strategy fit the agreed ranks, and the cluster is ready for requests |
| `Lru.LRUCache.constructor` | include/LRU.h:16-16 | An empty cache of the given capacity |
| `Lru.LRUCache.Get` | include/LRU.h:18-24 | The list and map change as one access of the recency list; list and map stay in bijection and within capacity |
| `Lru.LRUCache.Set` | include/LRU.h:25-42 | The same for storing, with eviction of the last entry only when a new key meets a full list |
| `LruSpec.SetFacts` | include/LRU.h:25-42 | Storing keeps keys distinct and the size within capacity; the key has its value and any other key its old value or none |
| `LruSpec.GetFacts` | include/LRU.h:18-24 | Reading loses nothing and changes no value |
| `LruSpec.HitsAreCurrent` | include/LRU.h:18-42 | After any history a read is a miss or the value last stored under its key |
| `LruSpec.Retention` | include/LRU.h:18-42 | A key in use is still cached while fewer than capacity distinct other keys have been used since |
| `LruSpec.CapacitySimulation` | include/LRU.h:18-42 | On the same history a smaller cache's list is a subsequence of a larger one's, so each of its hits is the same hit in the larger |
| `Paths.SplitPath` | common/util.cc:37-60 | The strtok loop yields the left fold of push, skip and pop over the slash-separated tokens |
| `Paths.StrTok` | common/util.cc:48-57 | One call takes exactly the next token |
| `Paths.ComponentsConcat` | common/util.cc:37-60 | Splitting `p + "/" + q` continues the fold of p with the tokens of q |
| `Paths.ComponentsJoined` | common/util.cc:37-60 | So its components are those of p less as many as q climbs, followed by those of q |
| `Paths.ComponentsValid` | common/util.cc:37-60 | Of any string, split_path yields only names that are non-empty, without slash, and neither "." nor ".." |
| `Paths.JoinSplit` | common/util.cc:37-60 | Joining and splitting again is the identity on components |
| `Paths.FindAll` | common/util.cc:5-14 | Exactly the match positions, in increasing order |
| `Paths.Dirname` | common/util.cc:67-76 | The loop over trailing slashes and rfind give the text before the last name, or "/" |
| `Paths.SpellsDirname` | common/util.cc:67-84 | On canonical paths dirname and basename split off the last component and leave a canonical path |
| `Paths.TrailingSlash` | common/util.cc:67-84 | Of trailing slashes dirname drops all and basename only one |
| `Namespace.LookupConcat` | fs/FileSystem.cc:58-72 | Looking up `p + "/" + q` is looking up q below what p names, or nothing if p names nothing, for every q that does not climb above its own start |
| `Namespace.LookupJoined` | fs/FileSystem.cc:58-72 | For all p and q, looking up `p + "/" + q` walks the components of p that q does not climb away, and then those of q |
| `Namespace.DotDotIgnoresTheTree` | common/util.cc:51-53 | After any p, existing or not, ".." names what p without its last component names |
| `Namespace.CreateFrame` | fs/FileSystem.cc:80-117 | After one creation every walk gives what it gave, or the new inode where it gave nothing |
| `Namespace.CreatedFound` | fs/FileSystem.cc:80-117 | The new inode is found under its name exactly when the name was free |
| `Namespace.LookupStable` | fs/FileSystem.cc:58-117 | What a path names it keeps naming while the tree grows |
| `FileLaws.ReadingLaw` | fs/FileSystem.cc:58-134 | stat, read and ls answer the identity, the content and the names, in order, that a path shows; they fail exactly when it shows nothing, or for ls no directory, and change nothing |
| `FileLaws.WalkInjective` | fs/FileSystem.cc:58-72 | No two component lists name the same inode |
| `FileLaws.MakeDirLaw` | fs/FileSystem.cc:109-117 | mkdir succeeds exactly when the parent exists and the name is free, else the tree is unchanged. Then the path shows an empty directory, its directory one name more at the end, and every other path what it showed |
| `FileLaws.MakeFileLaw` | fs/FileSystem.cc:80-86 | mknod succeeds exactly when the parent exists. Then the path shows an empty file if the name was free, and otherwise what it showed; its directory shows one name more, every other path what it showed |
| `FileLaws.WriteLaw` | fs/FileSystem.cc:102-107 | write succeeds exactly when the path exists. Then the path shows the data as content and is otherwise unchanged, and every other path shows what it showed |
| `FileLaws.RemoveLaw` | fs/FileSystem.cc:88-124 | rm succeeds exactly when the path exists, rmdir as a client calls it exactly when that is a directory; the root stays. Otherwise the path and everything below it stop naming what they named, and name nothing when no sibling has the name; its directory loses the first occurrence of the name; every other path shows what it showed |
| `FileLaws.EmptyLaw` | fs/FileSystem.h:50-50 | In the beginning only the root exists, an empty directory |
| `Namespace.RemoveCutsPaths` | fs/FileSystem.cc:41-56 | A removal changes exactly the paths through the inode: they no longer name what they named, and name nothing when no sibling has the inode's name; every other lookup is unchanged |
| `Namespace.RemoveFrame` | fs/FileSystem.cc:21-56 | The same for walks from any inode outside; of the entries outside the subtree only the parent's change, by losing that inode; siblings keep their order |
| `Namespace.RemoveValid` | fs/FileSystem.cc:41-56 | A removal leaves a valid tree |
| `Emptying.Turn` | fs/FileSystem.cc:52-54 | Emptying the first entry and erasing it takes one state of the loop to the next, whatever has been emptied before |
| `Emptying.ClearedAgain` | fs/FileSystem.cc:48-56 | What earlier turns emptied does not change what a later recursion empties in the end |
| `Emptying.EmptiedThenUnlinked` | fs/FileSystem.cc:41-47 | Emptying an inode and erasing it from its parent is the removal the frame lemmas are about |
| `FileSystems.Inode.GetSubItr` | fs/FileSystem.cc:13-19 | The position of the first entry of that name, or the end |
| `FileSystems.Inode.DeleteSub` | fs/FileSystem.cc:21-29 | The erasing loop removes every occurrence and keeps the order of the rest |
| `FileSystems.FileSystem.Lookup` | fs/FileSystem.cc:58-72 | The cursor loop over objects finds what the tree's lookup finds, or null |
| `FileSystems.FileSystem.IsDir` | fs/FileSystem.cc:74-78 | True exactly when the path names a directory |
| `FileSystems.FileSystem.Mknod` | fs/FileSystem.cc:80-86 | Succeeds exactly when the parent is there and the name has no slash, without a look at the siblings; then an empty file of that name is appended to the parent, else nothing happens |
| `FileSystems.FileSystem.Mkdir` | fs/FileSystem.cc:109-117 | Succeeds exactly when the parent is there, the name has no slash and no entry of the parent has it; then an empty directory of that name is appended to the parent, else nothing happens |
| `FileSystems.FileSystem.Read` | fs/FileSystem.cc:95-100 | The content of the inode, or failure exactly for null |
| `FileSystems.FileSystem.Write` | fs/FileSystem.cc:102-107 | The inode has the given content, its name and entries are kept, nothing else changes; failure exactly for null |
| `FileSystems.FileSystem.Listdir` | fs/FileSystem.cc:126-134 | The entries in order, or failure for null and for files |
| `FileSystems.FileSystem.DeleteMyselfRecur` | fs/FileSystem.cc:49-56 | The erase-while-recursing loop terminates and empties exactly the directories reachable from the inode |
| `FileSystems.FileSystem.DeleteMyself` | fs/FileSystem.cc:41-47 | The root stays; any other inode is emptied and leaves its parent: exactly the removal on trees |
| `FileSystems.FileSystem.Rm` | fs/FileSystem.cc:88-93 | Removal, or failure for null |
| `FileSystems.FileSystem.Rmdir` | fs/FileSystem.cc:119-124 | The same: the source does not look whether the inode is a directory |

## Left out

- Latency, randomness and the simulated clock: messages are counted instead, and the counts that scale the memory latency are kept as `work`.
- Logging, clock formatting, configuration files, the driver's workload and its statistics.
- `std::hash` is any function from strings to naturals; only its remainder is used.
- `strtok` and C buffers are the token sequence of the string; strings with an embedded NUL are not distinguished.
- C++ memory lifetime: inodes and messages are never freed, and a removed inode stays as a detached object. Copies of inodes (CInode) are the inode's identity.
- `dirname` of the empty string, or of slashes only, reads before the start of the string in the source; `Paths.Dirname` asks for a path with a name, and `Placement.MissingHasName` shows that the dispatchers only call it with one.
- Simulation.Simulate: with the cache on only runs of cache-safe calls, because after any other call an answer is wrong, as `Clients.IssueThenStat` shows; and the condition of the next line on the hosts.
- Simulation.SideBySide: the same two conditions.
- Clients.RunAll: the first of them.
- Non-canonical paths in end-to-end runs; `Clients.ClientProcess.LookupPath` and the dispatchers are stated on every string.
- Simulation.StartServers: asks that no host starts a service when it already runs 100, because the next one is given the first reverse port (`Ports.TakenExactly`), and other processes of that host would then lose replies (`Ports.FirstReply`).
- Starting.Startup.StartMds: the same.
- Simulator.Cluster.Send: messages between servers and clients as the handlers send them; a forwarded request, for example, has its owner as target.
- Host pointers in the lookup table are integers in their usual order.
- Simulator.Cluster: one object holds the fields of all processes, each indexed by its process, because nested handlers re-enter the same objects; its tree, caches, ports and dispatchers are the values that `FileSystems.FileSystem`, `Lru.LRUCache`, `NetworkLayer.Network` and `Dispatchers.MetadataDispatcher` are proved to compute, not those objects themselves.
- The two control flows are separate classes: registration (`Starting.Startup`) finishes before requests begin (`Simulator.Cluster`), and clients connect before the dispatchers are built; the driver does it the other way round, which changes nothing as connecting does not use them.
- Null messages, unknown message types, an unknown strategy name, and a monitor that is missing.
- The standby list, more than one monitor, services that stop while requests are served, and `split`, `delete_sub` by name and `get_sub`, which only repeat their neighbours.

# Verification of the PBS cgroup hook and the autostop script

This project models, in Dafny, the two parts of az-hop that decide rather than configure: the PBS cgroup
hook (`playbooks/roles/pbsserver/files/pbs_cgroups.PY`), which places jobs on the CPUs, memory and devices of
a compute node and cleans up after them, and the autostop script, which shuts idle nodes down. Check it with
`dafny verify dfyconfig.toml`.

The modules, from the bottom up:

- `Collections`: lists, sorting and sums shared by the rest.
- `Sizes`, `CpuLists`: size texts and their units, and the CPU list format of the cpuset files.
- `Topology`, `CpuSelection`, `Devices`: hyperthread discovery, the choice of CPUs under three policies, and
  the choice of accelerators.
- `Availability`, `Placement`: what is free, and where a job goes.
- `Limits`, `Reserves`: a job's interdependent memory limits, and the spread of host memory over NUMA nodes.
- `Allocator`, `JobSetup`, `Overcommit`: whole runs of the allocator as a step relation with its invariants and
  exactly when they last, the handlers as methods of a class that take such steps, and runs in which they do
  not last.
- `Capacity`, `Cores`: advertised against allocatable CPUs, and jobs against physical cores with hyperthreads on
  and off.
- `UnitNames`, `JobsFile`, `Orphans`, `Lifecycle`: job ids as directory names, the side file of new jobs, the
  orphan cleanup, and the handlers as a protocol in which no live job loses its cgroup.
- `Cleanups`: the two step relations joined into one, which shows what cleanups the allocator ever sees.
- `ConfigMerge`, `Autostop`: the layered configuration, and the idle watchdog over sequences of polls.

Python loops are methods proved against specification functions; what the source promises is proved about
those functions and about runs of the step relations. Lemmas whose names end in `Is`, `Are` or `Iff` say what a
specification function means without its own vocabulary. Dictionary orders are arbitrary: either an input list
or a set visited in any order. Kernel behaviour is an explicit choice.

What the model found in the code:

- With `use_hyperthreads` and `ncpus_are_cores` both on, the first pass hands out second threads of many cores
  before any first thread. A job gets whole cores only if it needs exactly the wholly free ones and their first
  threads are the lowest free CPUs left (`WholeCoresIff`); on an idle node that means every CPU. The remark at
  lines 3159-3161 of the hook describes something else than the code does, and the model follows the code.
- A resumed job may share its CPUs, devices and memory with jobs that began meanwhile; it does so exactly if its
  holdings were given away (`ExclusiveForever`, `DevicesExclusiveForever`, `MemorySafeForever`, `ResumeCollides`).
- A job on a vnode without a memory request is charged the configured default unchecked (`VnodeOvercharges`).
- If gathering the local jobs fails, the resync treats the empty list as complete and may clear the directory
  of any live job (`EmptyListOrphansEveryone`), whose CPUs the next job is then given (`ClearCollides`).
- The second placement attempt repeats the first one on the same table. It can differ only if some job was
  suspended or resumed in between (`FindPlace`).
- A job id ending in `.orphan` is never cleaned up with slices (`OrphanIdIsKept`).
- Huge pages enabled without memory and memsw always fail on a local variable that was never set
  (`ConfigureLimits`).
- A job may be accepted with more memory than virtual memory if it asks for virtual memory below whole
  kilobytes; `WrittenOrder` says exactly when.
- A coprocessor may be dropped silently behind another one's controller entry (`ShadowedExample`).
- A reserve percentage below 100 has no effect, and one from 100 up makes the figure fail
  (`SmallPercentIgnored`, `FullPercentFails`).
- A first processor that announces fewer siblings than cores ends the discovery in a division by zero
  (`DiscoverCpuInfo`).

## Model

| member | source | states |
|---|---|---|
| CpuSelection.SelectCpus | playbooks/roles/pbsserver/files/pbs_cgroups.PY:3118-3171 | The CPU phase fails exactly when the allowed free CPUs are fewer than requested, or than the requested cores have threads; otherwise it yields the specified choice of just that many. The final-pass shortage branch is dead |
| CpuSelection.TakeIdleSiblings | playbooks/roles/pbsserver/files/pbs_cgroups.PY:3132-3154 | The nested first pass gives out siblings of fully idle cores, each once, lowest core first, and keeps the remaining count and pool exact |
| CpuSelection.FindIdleCores | playbooks/roles/pbsserver/files/pbs_cgroups.PY:3133-3140 | The marked cores are exactly the free first threads all of whose siblings are free |
| CpuSelection.ChoiceIsExact | playbooks/roles/pbsserver/files/pbs_cgroups.PY:3118-3171 | Under all three hyperthread policies a choice is exactly the needed number of distinct CPUs, all free and allowed by the policy |
| CpuSelection.LowestFirst | playbooks/roles/pbsserver/files/pbs_cgroups.PY:3119-3122 | With hyperthreads off a job gets the lowest-numbered free first threads in increasing order |
| CpuSelection.LowestCoresFirst | playbooks/roles/pbsserver/files/pbs_cgroups.PY:3132-3154 | With hyperthreads on, a sibling that belongs to no idle core up to a given one is handed out only after all siblings of that core |
| Topology.DiscoverCpuInfo | playbooks/roles/pbsserver/files/pbs_cgroups.PY:1558-1602 | The threads per core are how often the cores of the first record go into its siblings if it is an Intel one with the ht flag and both counts, and 1 with empty lists otherwise; fewer siblings than cores end in a division by zero. With several threads the map is built exactly when no needed field is missing; a mapping that fails keeps the rows up to the failing comparison and the thread count, and leaves the hyperthread list empty |
| Topology.SiblingsById | playbooks/roles/pbsserver/files/pbs_cgroups.PY:1576-1594 | In a built map a CPU is attached to another if and only if its id is larger and both ids of the core agree, and it is a hyperthread if and only if such a smaller CPU exists |
| Topology.MissingFields | playbooks/roles/pbsserver/files/pbs_cgroups.PY:1576-1602 | A missing package id, or core id within one package, of any two CPUs stops the mapping; complete records never do |
| Topology.MapHyperthreads | playbooks/roles/pbsserver/files/pbs_cgroups.PY:1576-1594 | Whatever the table order, larger siblings are attached to each CPU and the hyperthreads are exactly the CPUs with a smaller sibling |
| Topology.FirstThreads | playbooks/roles/pbsserver/files/pbs_cgroups.PY:1576-1594 | Once the map is built, the CPUs outside it are exactly the least of each physical core |
| Topology.NoSharedCore | playbooks/roles/pbsserver/files/pbs_cgroups.PY:3119-3122 | With hyperthreads off no two CPUs given to one job share a physical core |
| Cores.OwnCoresForever | playbooks/roles/pbsserver/files/pbs_cgroups.PY:3119-3122 | With hyperthreads off, in whole runs and by every route of placement, physical cores are shared neither between holding jobs nor within one, if and only if no job is resumed whose CPUs were given away and no cleanup takes a live job's cgroup |
| Cores.StepAvoids | playbooks/roles/pbsserver/files/pbs_cgroups.PY:3119-3122 | With hyperthreads off no step, on vnodes or not, puts a hyperthread into a job's CPU set |
| Capacity.CreateVnodes | playbooks/roles/pbsserver/files/pbs_cgroups.PY:1845-1894 | The advertised CPU count is the sum over the NUMA nodes, independent of their order |
| Capacity.CountCores | playbooks/roles/pbsserver/files/pbs_cgroups.PY:1576-1594 | A set of whole cores of k threads has k times as many CPUs as first threads |
| Capacity.WholeCoresFromTable | playbooks/roles/pbsserver/files/pbs_cgroups.PY:1255-1274 | What the processor table must say for NUMA nodes to hold whole cores of equal width |
| Capacity.AdvertisedIsAllocatable | playbooks/roles/pbsserver/files/pbs_cgroups.PY:1863-1894 | On an idle node of whole cores a CPU-only request is placed if and only if it stays within the advertised count, under each hyperthread policy and in any socket order |
| Capacity.WholeCoresIff | playbooks/roles/pbsserver/files/pbs_cgroups.PY:3132-3165 | With hyperthreads on and whatever is free, a job's CPUs form whole cores if and only if it needs none, or the siblings of all wholly free cores and first threads of these, all of the multi-threaded ones, that are the lowest of the other free CPUs |
| Capacity.MultiThreadedIff | playbooks/roles/pbsserver/files/pbs_cgroups.PY:3132-3165 | Where wholly free cores have several threads: if and only if it needs none, or exactly their CPUs and their first threads are below all other free CPUs |
| Capacity.IdleWholeCoresIff | playbooks/roles/pbsserver/files/pbs_cgroups.PY:3132-3165 | Where only whole multi-threaded cores are free: if and only if it gets none or all of the free CPUs |
| Capacity.RegainedCoresExample | playbooks/roles/pbsserver/files/pbs_cgroups.PY:3132-3165 | Four cores of which two are wholly free and two partly: a job that asks for two cores gets just these while other CPUs stay free |
| Capacity.SplitCoresExample | playbooks/roles/pbsserver/files/pbs_cgroups.PY:3132-3154 | On two idle cores of two threads, a job that asks for one core is given the second threads of both |
| Devices.AssignDevices | playbooks/roles/pbsserver/files/pbs_cgroups.PY:2992-3036 | The whitelist holds exactly the controller and own entries of the named devices, each once; names are the unshadowed devices in order |
| Devices.GrantedIs | playbooks/roles/pbsserver/files/pbs_cgroups.PY:3004-3034 | The entries are the devices' own, with minors 0 and 1 for a coprocessor and 255 for a GPU, and no others |
| Devices.AllNamedIff | playbooks/roles/pbsserver/files/pbs_cgroups.PY:2992-3036 | A job is named all devices it was counted for if and only if none repeats an earlier one or coincides with an earlier one's controller entry |
| Devices.ShadowedExample | playbooks/roles/pbsserver/files/pbs_cgroups.PY:3006-3022 | Two coprocessors of which the second is dropped behind the first one's controller entry |
| Availability.AvailableNodeResources | playbooks/roles/pbsserver/files/pbs_cgroups.PY:3356-3493 | The free view equals, per socket, the NUMA list in order minus the CPUs of every counted job whose mems name it, the devices on no counted whitelist, and the memory minus the charged limits whenever these fit, for every order of the job table; it is a function of the table, the suspensions and that order |
| Availability.FreeCpuIff | playbooks/roles/pbsserver/files/pbs_cgroups.PY:3410-3441 | A CPU of a NUMA node is free if and only if no job that is neither suspended nor excluded holds it there |
| Availability.FreeDeviceIff | playbooks/roles/pbsserver/files/pbs_cgroups.PY:3443-3491 | A device is free on the NUMA node it is attached to if and only if no such job lists its number |
| Availability.FreeMemory | playbooks/roles/pbsserver/files/pbs_cgroups.PY:3362-3376 | Without charges a NUMA node offers its spread share, taken as zero when negative, or all its memory if nothing was spread |
| Availability.RemoveCpus | playbooks/roles/pbsserver/files/pbs_cgroups.PY:3432-3441 | Nested in-place removals over repeated sockets equal one order-keeping subtraction per named socket |
| Availability.RemoveNumbers | playbooks/roles/pbsserver/files/pbs_cgroups.PY:3455-3491 | Removing the first device that matches each whitelist line removes exactly the devices with a listed number |
| Placement.AssignResources | playbooks/roles/pbsserver/files/pbs_cgroups.PY:3112-3240 | A request is granted exactly when CPUs, device counts and memory all fit, and is given the specified assignment; the rows below say in counts and kinds what both mean |
| Placement.FitsIff | playbooks/roles/pbsserver/files/pbs_cgroups.PY:3118-3240 | A request fits if and only if its CPUs, times the threads per core where requests count cores with threads on, are within the allowed free ones, its coprocessors within the free coprocessors, its GPUs within the free GPUs, and its memory within the free memory |
| Placement.AssignmentNames | playbooks/roles/pbsserver/files/pbs_cgroups.PY:3175-3218 | The named devices are among the first free coprocessors and then the first free GPUs of the list, as many of each as requested, and all of these in this order if and only if none is shadowed |
| Placement.PlaceCount | playbooks/roles/pbsserver/files/pbs_cgroups.PY:3118-3171 | By every route a job that asks for n CPUs gets n distinct ones, or n times the threads per core where requests count cores with threads on, and keeps its memory request |
| Placement.CountJobs | playbooks/roles/pbsserver/files/pbs_cgroups.PY:3282-3289 | The per-socket job counts are the occurrences in the recorded mems |
| Placement.PlaceJob | playbooks/roles/pbsserver/files/pbs_cgroups.PY:3274-3354 | Without vnodes the outcome is the placement over the sockets in their (re)ordered sequence |
| Placement.PlacementRule | playbooks/roles/pbsserver/files/pbs_cgroups.PY:3274-3354 | The job goes to a socket with the fewest jobs among those that fit, with mems that socket and the memory-only nodes; it spans only if none fits, and then succeeds exactly when it fits the pooled resources |
| Placement.SocketOrderElements | playbooks/roles/pbsserver/files/pbs_cgroups.PY:3275-3298 | The socket order is a permutation of the sockets, sorted by job count under load balancing |
| Placement.TiesKeepOrder | playbooks/roles/pbsserver/files/pbs_cgroups.PY:3282-3298 | Sockets that equally many recorded mems name are tried in the order of the table |
| Placement.PlaceSound | playbooks/roles/pbsserver/files/pbs_cgroups.PY:3299-3354 | By every route the CPUs are distinct and each was free on a NUMA node of the job's own mems |
| Placement.PlaceVnodes | playbooks/roles/pbsserver/files/pbs_cgroups.PY:3299-3343 | Vnode placement is all-or-nothing: it fails exactly when some vnode's request does not fit |
| Placement.VnodeRule | playbooks/roles/pbsserver/files/pbs_cgroups.PY:3078-3110 | The folded CPU list is a sorted rearrangement of the per-vnode lists, without repetition as vnodes name distinct sockets; memory is their sum, mems are the sockets and memory-only nodes, and every CPU was free there |
| Placement.VnodeCount | playbooks/roles/pbsserver/files/pbs_cgroups.PY:3299-3343 | On vnodes a job gets as many CPUs as it requests on all of them together, in threads or whole cores as configured |
| Placement.VnodeNames | playbooks/roles/pbsserver/files/pbs_cgroups.PY:3078-3110 | The named devices of a job on vnodes are those of its vnodes, in order, and none is lost |
| Allocator.StepExclusive | playbooks/roles/pbsserver/files/pbs_cgroups.PY:3864-3935 | Every begin, resize, refusal, end and suspension keeps the live jobs on record, the CPU sets of holding jobs disjoint and each job's CPUs inside its own mems; a resumption does so if and only if no holding job was given one of the job's CPUs, and a cleanup if and only if it spares the live jobs |
| Allocator.ResumeExclusive | playbooks/roles/pbsserver/files/pbs_cgroups.PY:3404-3409 | Resuming a job keeps exclusivity if and only if its CPUs are disjoint from those of every holding job |
| Allocator.ClearExclusive | playbooks/roles/pbsserver/files/pbs_cgroups.PY:3882-3895 | A cleanup keeps exclusivity if and only if it takes no live job's cgroup |
| Allocator.ExclusiveForever | playbooks/roles/pbsserver/files/pbs_cgroups.PY:3397-3441 | In every run live jobs stay on record and the CPU sets of those that hold their CPUs pairwise disjoint, if and only if no job is resumed whose CPUs were given away and no cleanup takes a live job's cgroup |
| Allocator.StepMemory | playbooks/roles/pbsserver/files/pbs_cgroups.PY:3442-3451 | Each single step, of whatever kind, keeps memory conservation if and only if the job it is about has room |
| Allocator.PlainStep | playbooks/roles/pbsserver/files/pbs_cgroups.PY:3220-3237 | Grants without vnodes, and on distinct vnodes that carry the memory the job is charged, always find room; so do ends, refusals, suspensions and cleanups that bring no suspended leftover back |
| Allocator.VnodeMemoryIff | playbooks/roles/pbsserver/files/pbs_cgroups.PY:3310-3343 | Granting a begin or resize on vnodes keeps memory conservation if and only if the limit that is charged, known before the placement, fits where the NUMA nodes it is recorded on are one, or the resized job is suspended |
| Allocator.MemorySafeForever | playbooks/roles/pbsserver/files/pbs_cgroups.PY:3442-3451 | In every run the limits charged to a NUMA node never exceed its memory if and only if each arriving charge finds room beside the others, as it does in every plain step; the guarded subtraction is then exact whatever the job order |
| Allocator.LimitFits | playbooks/roles/pbsserver/files/pbs_cgroups.PY:3220-3237 | A grant recorded on exactly one NUMA node has a limit within what was free there, also on vnodes that carry the memory charged |
| Allocator.GrantedCount | playbooks/roles/pbsserver/files/pbs_cgroups.PY:3538-3554 | In every granted begin or resize the CPU set on record has exactly the size of the request, on one host and on distinct vnodes |
| Allocator.RefusedIff | playbooks/roles/pbsserver/files/pbs_cgroups.PY:3242-3354 | A job without vnodes is refused if and only if it fits nowhere or asks for no CPU |
| Allocator.DevicesExclusiveForever | playbooks/roles/pbsserver/files/pbs_cgroups.PY:3452-3491 | In every run in which whitelists read back what was written, no two holding jobs are named the same device, if and only if no job is resumed whose devices were given away and no cleanup takes a live job's cgroup |
| Cleanups.CleanupsSpareLive | playbooks/roles/pbsserver/files/pbs_cgroups.PY:3882-3895 | In a run of the handlers in which gathering completes, what a cleanup removed or renamed was no live job's cgroup |
| Cleanups.ExclusiveTogether | playbooks/roles/pbsserver/files/pbs_cgroups.PY:734-996 | Where gathering completes, exclusivity of CPUs and devices over whole runs lasts if and only if no job is resumed whose holdings were given away |
| Cleanups.JointExclusive | playbooks/roles/pbsserver/files/pbs_cgroups.PY:734-996 | One handler run, as a step of the protocol with its event of the allocator and its cleanups, keeps exclusivity; a resumption does if and only if the job's CPUs were kept |
| Cleanups.JointForever | playbooks/roles/pbsserver/files/pbs_cgroups.PY:734-996 | Handlers, cleanups and allocator as one system: where gathering completes both sides know the same live jobs, all on record and with their directories, and exclusivity lasts if and only if no job is resumed whose CPUs were given away |
| Overcommit.ResumeCollides | playbooks/roles/pbsserver/files/pbs_cgroups.PY:3404-3409 | A begin, a suspension, a begin and a resumption after which two jobs hold one CPU and twice the memory |
| Overcommit.ClearCollides | playbooks/roles/pbsserver/files/pbs_cgroups.PY:3882-3895 | A begin, a cleanup that takes the job's cgroup and another begin, after which two jobs that were never suspended have been given the only CPU and all memory |
| Overcommit.VnodeOvercharges | playbooks/roles/pbsserver/files/pbs_cgroups.PY:3310-3343 | A vnode without a memory request, on which a job is charged a default that exceeds the NUMA node's memory |
| JobSetup.NodeAllocator.Begin | playbooks/roles/pbsserver/files/pbs_cgroups.PY:746-790 | The begin handler refuses exactly with the limits' error, and otherwise takes the run model's begin step of exactly the configured request, granted if and only if it succeeds; exclusivity is kept, and memory conservation for backed requests |
| JobSetup.NodeAllocator.FindPlace | playbooks/roles/pbsserver/files/pbs_cgroups.PY:3864-3907 | Both attempts are the placement on the same table in the same order, so they agree unless a job in it was suspended or resumed in between; the second one decides, and an empty CPU list counts as failure |
| JobSetup.NodeAllocator.Resize | playbooks/roles/pbsserver/files/pbs_cgroups.PY:980-996 | A resize treats its own holdings as free, takes the run model's resize step of exactly the configured request, granted if and only if it succeeds, and leaves everything unchanged on failure; exclusivity is kept, and memory conservation for backed requests |
| JobSetup.NodeAllocator.End | playbooks/roles/pbsserver/files/pbs_cgroups.PY:809-821 | An end releases the job even where the kernel keeps its cgroup, and keeps exclusivity and memory conservation |
| Limits.HostResources.ConfigureMemory | playbooks/roles/pbsserver/files/pbs_cgroups.PY:3720-3837 | The in-place memory decision equals a closed form in maxima and minima, refuses in the stated order without writing anything, never overwrites a requested value, and never needs the second raise |
| Limits.RefusalIs | playbooks/roles/pbsserver/files/pbs_cgroups.PY:3753-3814 | Which refusal is raised, if any, as a condition on the request, the decided limits and what the node offers |
| Limits.HostResources.ConfigureLimits | playbooks/roles/pbsserver/files/pbs_cgroups.PY:3720-3863 | Huge pages without memory and memsw always hit an unset local; otherwise the refusal in the stated order, or the limits, the huge-page limit and at least one CPU |
| Limits.AcceptedLimits | playbooks/roles/pbsserver/files/pbs_cgroups.PY:3786-3837 | For whole-kilobyte requests with both controllers on: written mem is at most written vmem, swap is promised only if there is some, and the soft limit stays within the memory limit if and only if it is not a default above the available memory |
| Limits.PartKilobyteExample | playbooks/roles/pbsserver/files/pbs_cgroups.PY:3729-3739 | A request below whole kilobytes that is accepted although written mem exceeds written vmem |
| Limits.VirtualAloneExample | playbooks/roles/pbsserver/files/pbs_cgroups.PY:3786-3797 | A request for vmem alone that is accepted although written mem exceeds written vmem |
| Limits.WrittenOrder | playbooks/roles/pbsserver/files/pbs_cgroups.PY:3786-3814 | An accepted job is written with mem within vmem if and only if it asks for no vmem, for whole kilobytes of it, or for enough to cover the memory unrounded; when both are requested they otherwise round to the same kilobyte |
| Sizes.ConvertSize | playbooks/roles/pbsserver/files/pbs_cgroups.PY:177-221 | Scaling, adding one for a remaining fraction and truncating yields the exact ceiling in the target unit, and a bare zero for zero and negative sizes |
| Sizes.ParseIs | playbooks/roles/pbsserver/files/pbs_cgroups.PY:201-210 | Any text of a sign or none, digits, and whatever else: the character after the digits counts if it is a unit, and without digits the text is unreadable |
| Sizes.UnitTable | playbooks/roles/pbsserver/files/pbs_cgroups.PY:196-197 | Every unit from the byte up is 1024 of the one before it, in either case |
| Sizes.SizeAsInt | playbooks/roles/pbsserver/files/pbs_cgroups.PY:227-231 | Stripping the unit off the size in bytes yields the size, zero for negatives, and fails exactly on unreadable text |
| Sizes.ConversionIsCeiling | playbooks/roles/pbsserver/files/pbs_cgroups.PY:177-221 | Read back, the result is the least multiple of the target unit not below the size |
| Sizes.DownConversionExact | playbooks/roles/pbsserver/files/pbs_cgroups.PY:185-191 | Converting to a unit that divides the size's own loses nothing |
| Sizes.ThroughFinerUnit | playbooks/roles/pbsserver/files/pbs_cgroups.PY:177-221 | Converting through a finer unit first gives the same text as converting directly |
| CpuLists.ExpandList | playbooks/roles/pbsserver/files/pbs_cgroups.PY:343-365 | The expansion loop yields the meaning of a condensed list and fails exactly where a number cannot be read |
| CpuLists.ListIs | playbooks/roles/pbsserver/files/pbs_cgroups.PY:343-365 | A list is its first entry followed by the rest, and one entry that cannot be read spoils it |
| CpuLists.ListRoundTrip | playbooks/roles/pbsserver/files/pbs_cgroups.PY:3538-3554 | Every list of integers joined with commas, as written to the cpuset files, is read back unchanged |
| CpuLists.RangeEntry | playbooks/roles/pbsserver/files/pbs_cgroups.PY:358-362 | A range of two naturals stands for exactly the integers between them |
| UnitNames.Escape | playbooks/roles/pbsserver/files/pbs_cgroups.PY:2645-2666 | The escaping loop equals the position-aware character-wise escape |
| UnitNames.PlainStays | playbooks/roles/pbsserver/files/pbs_cgroups.PY:2655-2659 | Text of letters, digits, underscores and dots without a dot in front is its own escape |
| UnitNames.EscapeIs | playbooks/roles/pbsserver/files/pbs_cgroups.PY:2655-2665 | A slash becomes a dash, and any other character, or a dot in front, its two-digit hexadecimal code |
| UnitNames.Unescape | playbooks/roles/pbsserver/files/pbs_cgroups.PY:2668-2693 | The unescaping loop equals the left-to-right decoding and fails exactly where the source raises ValueError |
| UnitNames.UnescapeFails | playbooks/roles/pbsserver/files/pbs_cgroups.PY:2668-2693 | After any decodable text without a backslash, a character outside the alphabet or a backslash without a code raises |
| UnitNames.EscapeRoundTrip | playbooks/roles/pbsserver/files/pbs_cgroups.PY:2645-2693 | Decoding undoes encoding for every byte string |
| UnitNames.EscapeInjective | playbooks/roles/pbsserver/files/pbs_cgroups.PY:2645-2666 | Escaping is injective despite the position-dependent leading dot |
| UnitNames.EscapedChars | playbooks/roles/pbsserver/files/pbs_cgroups.PY:2645-2666 | Escaped text uses only unit-name characters and never starts with a dot |
| UnitNames.DirRoundTrip | playbooks/roles/pbsserver/files/pbs_cgroups.PY:2626-2643 | Job id to directory name and back is the identity for a prefix without special characters, before and since systemd 205 |
| UnitNames.JobDirFound | playbooks/roles/pbsserver/files/pbs_cgroups.PY:2611-2624 | The glob pattern finds the directory of every job whose id starts with a digit |
| UnitNames.JobNameIff | playbooks/roles/pbsserver/files/pbs_cgroups.PY:2611-2624 | The patterns select exactly the names of prefix, dash and digit, or of a leading digit, and as orphans those of them that end in the suffix |
| UnitNames.OrphanNameDecodes | playbooks/roles/pbsserver/files/pbs_cgroups.PY:2626-2634 | A directory name with the orphan suffix decodes to an id with that suffix |
| JobsFile.ReadsBack | playbooks/roles/pbsserver/files/pbs_cgroups.PY:4501-4511 | Whatever order the set is written in, the line reads back as the set |
| JobsFile.FirstLineOnly | playbooks/roles/pbsserver/files/pbs_cgroups.PY:4501-4511 | Whatever follows the first line is ignored |
| JobsFile.SideFile.Add | playbooks/roles/pbsserver/files/pbs_cgroups.PY:4466-4481 | Rewriting in place and truncating adds exactly one id, whatever the file held |
| JobsFile.SideFile.Discard | playbooks/roles/pbsserver/files/pbs_cgroups.PY:4483-4499 | Rewriting in place and truncating removes exactly one id, whatever the file held |
| Orphans.CgroupTree.CleanupOrphans | playbooks/roles/pbsserver/files/pbs_cgroups.PY:4143-4181 | For every kernel behaviour spared names stay and only renamed directories appear; on a reliable kernel only directories blocked by an existing orphan are left, also where controllers share a path, decodable names never raise, and nothing is reported to remain; where paths are distinct a reported remainder means an orphan is left |
| Orphans.ZeroIsNotClean | playbooks/roles/pbsserver/files/pbs_cgroups.PY:4054-4076 | A sweep may report any number of failures up to that of the orphans it leaves, so a report of zero, on which a node comes back, does not mean clean |
| Orphans.LocalJobsSurvive | playbooks/roles/pbsserver/files/pbs_cgroups.PY:4156-4159 | The directory of a local job is never renamed or removed |
| Orphans.TwoCleanupsClear | playbooks/roles/pbsserver/files/pbs_cgroups.PY:4143-4181 | After two complete calls no directory of a non-local job is left under any path, even where it coexisted with its orphan |
| Orphans.OrphanIdIsKept | playbooks/roles/pbsserver/files/pbs_cgroups.PY:4158-4172 | A job id that itself ends in the orphan suffix is never cleaned up when directories are slices |
| Lifecycle.StepTracked | playbooks/roles/pbsserver/files/pbs_cgroups.PY:786-789 | Every step keeps each live job on record, in the side file before its launch and through its job file afterwards |
| Lifecycle.StepKeepsDirs | playbooks/roles/pbsserver/files/pbs_cgroups.PY:865-867 | No step takes away a directory of a live job it does not itself begin or finish |
| Lifecycle.LiveJobsKeepTheirCgroups | playbooks/roles/pbsserver/files/pbs_cgroups.PY:734-978 | In every interleaving of handlers, job-file updates and cleanups with arbitrarily stale snapshots, in which gathering completes, a live job keeps its directories until its own next begin, epilogue or end |
| Lifecycle.BeginLeavesDirs | playbooks/roles/pbsserver/files/pbs_cgroups.PY:754-757 | A completed begin whose gathering completes leaves a directory under every path of the job |
| Lifecycle.BegunJobsKeepTheirCgroups | playbooks/roles/pbsserver/files/pbs_cgroups.PY:734-978 | From its completed begin on a job has all its directories until its next begin, epilogue or end, in every interleaving in which gathering completes |
| Lifecycle.OnDiskForever | playbooks/roles/pbsserver/files/pbs_cgroups.PY:734-978 | In every run in which gathering completes, every live job is on record and has all its directories at every moment |
| Lifecycle.VisitDecides | playbooks/roles/pbsserver/files/pbs_cgroups.PY:4156-4159 | A complete visit keeps the directory of a job that is not blocked by an orphan if and only if the job is on the list |
| Lifecycle.OwnResyncIff | playbooks/roles/pbsserver/files/pbs_cgroups.PY:3868-3898 | A begin that is placed after a resync, which takes a suspension in between, keeps its own new directory on a reliable kernel if and only if gathering completed |
| Lifecycle.EmptyListOrphansEveryone | playbooks/roles/pbsserver/files/pbs_cgroups.PY:3883-3895 | In every world with all live jobs on record, the begin of another job whose gathering fails may leave any live job without its directory |
| Lifecycle.Mom.Begin | playbooks/roles/pbsserver/files/pbs_cgroups.PY:734-790 | The begin handler is a begin of its job: delete, create, two attempts of which the second decides, with a resync after each failure, then a record in the side file. After a success with completed gathering the job has all its directories. On a reliable kernel the last resync leaves nothing that its list does not spare, if not blocked by an orphan, unless a nonempty list lacks the job; then nothing is touched |
| Lifecycle.Mom.Resize | playbooks/roles/pbsserver/files/pbs_cgroups.PY:980-996 | The resize handler is a resize of its job with the same attempts and resyncs: on a reliable kernel the last resync clears what its list does not spare, a list that lacks the job leaves everything, and nothing else changes |
| Lifecycle.Mom.Resync | playbooks/roles/pbsserver/files/pbs_cgroups.PY:3873-3895 | The resync cleans up with what gathering yields, or with the empty list if it fails: on a reliable kernel all is cleared that the list does not spare, and a nonempty list without the job leaves the tree unchanged |
| Lifecycle.Mom.Attach | playbooks/roles/pbsserver/files/pbs_cgroups.PY:967-978 | The attach handler drops the id from the side file and nothing else |
| Lifecycle.Mom.Launch | playbooks/roles/pbsserver/files/pbs_cgroups.PY:836-854 | The launch handler is a launch of its job: it drops the id from the side file and nothing else |
| Lifecycle.Mom.Finish | playbooks/roles/pbsserver/files/pbs_cgroups.PY:792-834 | Epilogue and end drop the id and at most the job's own directories, and on a reliable kernel all of those |
| Lifecycle.Mom.Periodic | playbooks/roles/pbsserver/files/pbs_cgroups.PY:856-867 | The periodic handler cleans up against the stale snapshot joined with what is gathered now and touches no job on either; if gathering fails it raises with the tree unchanged; on a reliable kernel it clears what an orphan does not block, raises for no decodable tree and reports nothing to remain |
| Lifecycle.Mom.Gather | playbooks/roles/pbsserver/files/pbs_cgroups.PY:1604-1627 | Gathering yields exactly the side file's ids together with the job files, and fails exactly when the side file cannot be opened |
| Lifecycle.Mom.Delete | playbooks/roles/pbsserver/files/pbs_cgroups.PY:4183-4212 | Deleting removes at most directories of that job, even if it aborts; on a reliable kernel with decodable names it does not abort, and none is left that the pattern finds |
| Reserves.SpreadMemory | playbooks/roles/pbsserver/files/pbs_cgroups.PY:1288-1328 | The spread fails exactly when a host figure does, and otherwise gives every NUMA node the specified share |
| Reserves.MemoryIs | playbooks/roles/pbsserver/files/pbs_cgroups.PY:1629-1683 | Memory is the reported total without the reserve, in whole megabytes; it fails if the total is zero or less than a megabyte is left |
| Reserves.VmemIs | playbooks/roles/pbsserver/files/pbs_cgroups.PY:1685-1746 | Virtual memory is swap together with the memory left after the memory reserve, without its own reserve, in whole megabytes; it fails if less than one is left |
| Reserves.SpreadBounds | playbooks/roles/pbsserver/files/pbs_cgroups.PY:1288-1326 | Memory shares are whole megabytes and huge-page shares whole pages, the n virtual shares sum to within n megabytes of what the reserve leaves of the host's, and each reserve taken never exceeds the host's and falls short by less than n units |
| Reserves.KeptIsLess | playbooks/roles/pbsserver/files/pbs_cgroups.PY:1652-1683 | Non-negative percentages make the clamps of the host reserves dead |
| Reserves.SmallPercentIgnored | playbooks/roles/pbsserver/files/pbs_cgroups.PY:1668-1671 | A percentage has no effect if and only if it is non-negative and below one hundred |
| Reserves.ShareReservedIff | playbooks/roles/pbsserver/files/pbs_cgroups.PY:1668-1671 | Dividing the percentage first reserves the intended share if and only if what the division drops is worth less than a byte |
| Reserves.FullPercentFails | playbooks/roles/pbsserver/files/pbs_cgroups.PY:1665-1680 | A percentage of one hundred or more makes the figure fail, so a spread that succeeds had none |
| ConfigMerge.MergeDict | playbooks/roles/pbsserver/files/pbs_cgroups.PY:319-340 | The merge loops succeed exactly without a clash of dictionary and value, and equal the recursive merge for every key order |
| ConfigMerge.ClashIff | playbooks/roles/pbsserver/files/pbs_cgroups.PY:330-334 | The merge is refused if and only if some path leads to a dictionary on the old side and to a plain value on the new one |
| ConfigMerge.MergeKeepsPaths | playbooks/roles/pbsserver/files/pbs_cgroups.PY:319-340 | The result has exactly the paths of both sides, every leaf of the new side, and the base where the new side has nothing |
| ConfigMerge.MergeAssociative | playbooks/roles/pbsserver/files/pbs_cgroups.PY:319-340 | Whenever merging left to right succeeds, the other grouping succeeds with the same result |
| ConfigMerge.RegroupedIff | playbooks/roles/pbsserver/files/pbs_cgroups.PY:319-340 | If the right grouping succeeds, the left one does so if and only if its first merge does |
| ConfigMerge.RegroupingIsOneWay | playbooks/roles/pbsserver/files/pbs_cgroups.PY:330-334 | Three layers for which only the right grouping succeeds |
| Autostop.Node.IsKeepAlive | playbooks/roles/cyclecloud_cluster/projects/openpbs/cluster-init/files/autostop.rb:23-68 | The query happens exactly without a keep-alive file. It says no if and only if the last entry of the node's own name has a field that is absent, null or false, so an unlisted node is kept alive; otherwise the file is written, and an old one is deleted exactly beyond the throttle |
| Autostop.Node.Run | playbooks/roles/cyclecloud_cluster/projects/openpbs/cluster-init/files/autostop.rb:91-131 | One run shuts down if and only if the node has been idle beyond the timeout that applies, no keep-alive file is there and the reply says no; both files change exactly as stated, and the run equals one transition |
| Autostop.KeepAliveIs | playbooks/roles/cyclecloud_cluster/projects/openpbs/cluster-init/files/autostop.rb:50-57 | A reply keeps the node alive unless the last entry of its name is absent, null or false, and in particular if there is none |
| Autostop.StoredIdleStart | playbooks/roles/cyclecloud_cluster/projects/openpbs/cluster-init/files/autostop.rb:96-106 | Over any polls the stored start is absent before the first poll and after a job was seen, else the time of the first poll of the current idle run |
| Autostop.ShutdownRule | playbooks/roles/cyclecloud_cluster/projects/openpbs/cluster-init/files/autostop.rb:105-131 | A shutdown happens if and only if the idle run began at an earlier poll, exceeded the timeout for nodes with or without earlier jobs, no keep-alive file is there, and the last entry of the node's name in this poll's reply says no |
| Autostop.NextQueryIsThrottled | playbooks/roles/cyclecloud_cluster/projects/openpbs/cluster-init/files/autostop.rb:25-37 | After a true answer the next query comes more than the throttle later |

## Left out

- Reading `/proc`, `/sys`, `nvidia-smi`, `printjob` and the configuration file: CPU, memory, device and suspension facts are inputs, and so is the count of jobs per socket, whose key the cgroup reader never fills.
- Systemd slice files and `systemctl`: in particular, removing an orphan calls `_delete_slice` without a job id and so stops the parent slice; what systemd then does to other slices is not part of this model.
- `Lock` and `Timeout`: a handler is one atomic step. Logging, node offline and online comments, server contact and the exception reporting of `main` are omitted.
- A kernel that refuses some limit writes of a placed job after others succeeded: a grant is recorded as a whole or not at all.
- A leftover of which a cleanup or an end removes only some controllers' directories: it leaves the allocator's table as a whole or not at all.
- A renamed leftover that the reader of the cgroup tree cannot open under the name it decodes to, as with slices: the handler then fails.
- `Sizes.ConvertSize`: uses exact arithmetic where the source uses floating point; they agree below 2^53.
- `Devices.AssignDevices`: device names are told apart by kind and number instead of by text search, whitelist lines are values instead of text, and the final sort of device lists on vnodes is not modelled.
- `Placement.AssignResources`: mems and whitelists are sets, since the source may list a socket twice and only membership is used.
- `UnitNames.DirRoundTrip`: the prefix consists of letters, digits and underscores, and names are one line, as the kernel requires of cgroup names.
- `JobSetup.NodeAllocator.Begin`: the cpuset controller is on; without it there are no CPU sets to keep apart.
- `Cleanups.CleanupsSpareLive`: the ids of live jobs start with a digit, as the server's do; the tree's reader sees no others.
- `Lifecycle.Mom.Begin`: whether a placement succeeds is an open choice there; the placement itself is in `JobSetup`.
- `Limits.HostResources.ConfigureMemory`: the configured defaults are sizes in bytes rather than size texts.
- CPU-percent accounting, `convert_time`, `select_cpus` and the `ncpus` branch of `set_limit`: the configuration step deletes that key before limits are applied.
- The rest of the repository (deployment templates, playbooks, image builds, web front end): it configures and moves data.

# TrustZone test firmware: a verified model

The firmware boots three images on one processor: a monitor at EL3, and an EL1 kernel with an EL0
program in each of the secure and the nonsecure world. Each image edits its own translation tables
through those same tables. The worlds call each other with SVC and SMC instructions, one shared
interop buffer, and a monitor that swaps register contexts and flips SCR.NS. This project models that
firmware and proves what it relies on.

## What is modelled

**Page tables** (`Bits`, `Vmsa`, `TableTree`, `Memory`, `AddressSpace`, `FlatMap`, `Heap`, `HeapRuns`). Memory is a
sequence of words, shared by all translation regimes; addresses and descriptors are numbers with their
real bit layout, and `Translate` is the hardware's walk. Class `AddressSpace` holds the manager's globals; each descriptor load or store is
itself an access through `Translate`, so a proof that a method verifies is also a proof that it never
faults on its own tables. The invariant `TableTree.Inv` says: the tables form a tree with one frame and
one parent entry each; memory represents exactly the abstract `Space`; every table page is mapped at its
own address, writable; every pool frame is a table, data, just taken, or zero; and the tables that map
the rest of the pool exist. It holds between any two stores of an edit, not only between calls.

**Boot and start** (`Boot`, `Scripts`, `Startup`, `System`, `Reset`). The assembly mapper runs with physical addresses and
keeps a weaker invariant, `Core`; `BootEstablishes` is the step from one to the other. `Scripts` says what
the boot scripts leave mapped, in terms of hardware accesses alone. `System` composes
everything: from memory with three zero pools to a finished list of requests.

**The EL0 loader** (`PageRanges`, `Bytes`, `Loader`, `ElfFile`), byte by byte through translated addresses,
against an encoder for the file format.

**The call protocol** (`Messages`, `Protocol`, `ProtocolProof`, `ProtocolRuns`, `ProtocolLaws`, `Machine`,
`MachineRuns`, `Monitor`, `MonitorRefines`). `Protocol.Step` is one small step of the whole machine: one register context is
live, the monitor holds a saved one for each world, and SCR.NS says which world the processor takes itself
to be in. What the code leaves open (what a test body leaves in the shared buffer, register contents,
uninitialised descriptor fields) is an argument `Chance` of each step, and every theorem holds for all of
them. `ProtocolProof.Global` and `After` say what a request does as a single action, with no levels,
buffers, contexts or switches; the theorems relate all runs of the small steps to that. Class
`Machines.Machine` has the handlers as they are written, on mutable objects, with three address spaces in
one memory; the interop buffer is a page of that memory, which each handler reads and writes through the
tables of the regime it runs in. `Monitor` is the register swap itself.

**libcflat** (`Strings`, `Printf`, `RoundTrip`, `Formats`): overlapping copy, number parsing and the bounded
formatter, against an ideal formatter that knows nothing of buffers, and a grammar of formats with the text
that each piece stands for.

**The two-level manager** for 32-bit Arm (`ArmTables`, `ArmManager`, `ArmFlatMap`), with the same
self-editing discipline on short descriptors.

## What the code does that its callers might not expect

These are results here, each with its exact condition:

- The loader reads the entry point from the image after it has unmapped the image. The read faults if
  and only if the image length in the header is nonzero (`Loader.LoadEl0`). It copies sections in whole
  pages, so a section whose pages run past the mapped image faults even where its contents lie inside
  (`Loader.SectionFaultsIff`).
- A dispatch to a level or state that does not exist bounces once between the worlds, runs nothing, and
  leaves the secure server stuck in run_test's call instead of parked in its yield. The next request that
  goes to the secure world is then swallowed, valid or not, and frees the server. Over every list of
  requests, a dispatch runs if and only if its target exists and it either stays in the nonsecure world or
  finds the server parked (`ProtocolLaws.DispatchRunsIff`); the server is stuck after an odd number of lost
  dispatches since the last other request to the secure world (`ProtocolLaws.ExactlyOnce`).
- A map request for all levels does not map the page at nonsecure EL1, and sends out the lookup's error
  value where that page is not mapped: EL3 and secure EL1 then lose what they had there
  (`ProtocolLaws.MapUnmapped`). All three levels end up with one frame if and only if nonsecure EL1 had the
  page before, the request did not name physical address zero instead, and the server was parked or secure EL1
  had that frame already (`ProtocolLaws.MapEverywhere`, `MachineRuns.MapAllLevels`).
- A client that sets SCR.SMD locks itself out of EL3: a write to SCR reads back if and only if it leaves
  that bit clear (`ProtocolLaws.ScrReadsBack`). A client that clears SCR.NS separates EL3's state variable
  from it; the next dispatch to secure EL3 then makes run_test issue an SVC from EL3
  (`ProtocolLaws.FlippedWrite`).
- The interop test's case at EL3 falls through into the register read. It survives if and only if the
  hop is not the third, or the tested value names no register, or it names SCR and SCR already holds
  the value expected (`ProtocolLaws.FallThroughHarmless`).
- Zero-padded negative numbers do not parse back (`RoundTrip.PrintParse` gives both directions), and a
  field width of 2^31 or more is another width (`RoundTrip.FieldAsAsked`).
- `vsnprintf` returns one more than the length of the output, unlike the C standard's function of that
  name (`Printf.Vsnprintf`).
- On 32-bit Arm, unmapping reports an error only where a whole second-level table is missing
  (`ArmManager.Manager.UnmapVa`). Lookup answers an unmapped page under a present table with frame zero. It
  returns the error word where the table is missing, and also, properly, for the last byte of a page mapped
  to the last frame (`ArmManager.ErrorWord`). The 64-bit code reports each unmapped page.

## Preconditions

Callers of the map operations must leave room in the pool for the tables that are missing and must not
map or unmap a table's own page or a pool page about to become one. Attribute arguments are page
descriptors' low attribute bits, as everywhere in the sources. Boot needs zeroed pool memory, a table
region inside one 2 MB block and a script that uses at most 63 pool pages. A loaded image must contain
its headers and names, with page-aligned sections clear of the image, the pool and each other; where their
contents lie is free. In whole runs, clients send 32-bit test arguments, write SCR only with NS set, SMD clear and bits
that the register stores, and do not map the interop buffer's page; tests too leave NS and a clear SMD.
Format widths fit a `long`, and formatted lengths an `int`.

## Model

| member | source | states |
|---|---|---|
| `Vmsa.TableWordReads` | common/aarch64/mem_util.c:54-57 | a table descriptor written by or-ing address and attributes is read back as that table by the manager's mask and by the hardware |
| `Vmsa.PageWordReads` | common/aarch64/mem_util.c:64-65 | a page descriptor is read back as its page; it is writable exactly when AP[2] is clear and the frame exists, open to EL0 exactly when AP[1] is set, and every attribute bit arrives |
| `Vmsa.PathStep` | common/aarch64/mem_util.c:45-50 | each level's nine index bits extend the path by one child, so the walk's indexes are the radix digits of bits 12 to 47 |
| `TableTree.TranslateIsFlat` | common/aarch64/mem_util.c:38-68 | for every address and access the hardware walk over the words in memory gives exactly what the flat map of page numbers says |
| `TableTree.TranslateEl0IsFlat` | common/aarch64/vmsa.h:72-75 | an access from EL0 goes where the same access from EL1 goes, if the page is open to it, and nowhere otherwise |
| `TableTree.TableReachable` | common/aarch64/mem_util.c:49-58 | every entry of every table is reached, for loads and stores, at its own physical address: editing never faults |
| `TableTree.TakeKeepsInv` | common/aarch64/mem_util.c:31-36 | taking a pool frame keeps tree, representation, zero pool, self map and coverage |
| `TableTree.InvalidStoreKeepsInv` | common/aarch64/mem_util.c:54-54 | the half-written table entry, address without valid bit, breaks nothing |
| `TableTree.LinkKeepsInv` | common/aarch64/mem_util.c:52-55 | linking keeps the invariant because the new page is zero and already mapped at its own address |
| `TableTree.LeafStoreKeepsInv` | common/aarch64/mem_util.c:61-65 | setting or clearing the leaf of any page that holds no table keeps the invariant |
| `TableTree.PoolFrameCovered` | common/aarch64/mem_util.c:52-53 | the recursive call for a new pool page finds all its tables present: it allocates nothing, so the recursion ends |
| `TableTree.CoveredMissing` | common/aarch64/mem_util.c:45-59 | where the last table on a path exists, all of them do, and mapping adds none |
| `TableTree.GrownCounts` | common/aarch64/mem_util.c:45-59 | mapping consumes exactly one pool page per missing table, adds exactly the path's tables, and moves no table |
| `TableTree.MissingAtMost3` | common/aarch64/mem_util.c:45-59 | at most three pool pages per map |
| `AddressSpaces.AddressSpace.AllocatePa` | common/aarch64/mem_util.c:31-36 | returns the next pool frame, zero and unused, and steps past it |
| `AddressSpaces.AddressSpace.AddTable` | common/aarch64/mem_util.c:51-55 | one new table: exactly its own page becomes mapped, at its own address, and exactly its parent's entry is linked; only table memory is written |
| `AddressSpaces.AddressSpace.MapPa` | common/aarch64/mem_util.c:38-68 | terminates through its own recursion; the flat map gains exactly the page of va and the identity pages of the tables added; the invariant holds and only table memory is written |
| `AddressSpaces.AddressSpace.MapVa` | common/aarch64/mem_util.c:70-75 | the page is mapped to a fresh frame, which becomes data |
| `AddressSpaces.AddressSpace.UnmapVa` | common/aarch64/mem_util.c:77-104 | returns -1 and changes nothing if and only if the page is unmapped; otherwise removes exactly that page |
| `AddressSpaces.AddressSpace.LookupPa` | common/aarch64/mem_util.c:120-142 | the page's physical base address, or -1 if and only if the page is unmapped; where the hardware can read, the base of what it reads |
| `AddressSpaces.AddressSpace.HeapAllocate` | common/aarch64/mem_util.c:106-118 | returns the old heap top and moves it by whole pages, each mapped to a fresh frame; EL0 can load and store every byte of them |
| `FlatMap.Execute` | common/aarch64/mem_util.c:38-142 | over every sequence of map, unmap and lookup calls that the pool has exactly enough room for: every answer is the flat map's as it then is, pool pages included, and outside the pool the flat map evolves by the calls alone |
| `FlatMap.OutsideMapped` | common/aarch64/mem_util.c:45-65 | a map changes one page outside the pool |
| `FlatMap.HardwareSees` | common/aarch64/mem_util.c:38-142 | between calls the translation hardware sees that same flat map |
| `Heap.HeapPages` | common/aarch64/mem_util.c:106-118 | the n pages are mapped to n distinct, ascending fresh frames, which are the data frames added; every other page outside the pool is as before |
| `Heap.HeapUsable` | common/aarch64/mem_util.c:106-118 | every byte of an allocation is reached, for loads and stores, from EL1 and from EL0, at its page's own frame |
| `Heap.Consumption` | common/aarch64/mem_util.c:106-118 | pool pages consumed are the n pages plus the new tables of each level |
| `Heap.AddedBound` | common/aarch64/mem_util.c:111-113 | a level gains at most one table for each table-sized stretch touched |
| `Heap.HeapFits` | common/aarch64/mem_util.c:106-118 | consumption is at least n and at most n + (ceil(n/512)+1) + (ceil(n/512^2)+1) + (ceil(n/512^3)+1) |
| `HeapRuns.AllocateAll` | common/aarch64/mem_util.c:106-118 | any sequence of allocations returns consecutive ranges, maps what one allocation of all their pages would, and leaves every byte of them usable from EL0 |
| `HeapRuns.Disjoint` | common/aarch64/mem_util.c:106-118 | pages of the same or of different allocations never share an address or a frame, nor a frame handed out before |
| `Bytes.SetByteReads` | el1/aarch64/el1_loader.c:69-69 | storing a byte into a word changes that byte alone |
| `Bytes.DataStoreKeepsInv` | el1/aarch64/el1_loader.c:69-69 | writing to a data frame leaves the tables and the free pool intact |
| `PageRanges.InvOutside` | common/aarch64/mem_util.c:31-75 | a regime's whole invariant survives any change to memory outside its own pool: regimes with separate pools cannot disturb each other's tables |
| `PageRanges.UserOpens` | common/aarch64/vmsa.h:73-73 | a page mapped for the user is open to EL0 and EL1 at every offset, for loads and stores |
| `PageRanges.PrivilegedCloses` | common/aarch64/vmsa.h:75-75 | a page mapped privileged is reached by its own level at every offset and by EL0 at none |
| `PageRanges.UnmapRange` | el1/aarch64/el1_loader.c:74-77 | unmaps the pages of a length, keeping data and all memory outside the pool |
| `PageRanges.UnmappedPages` | el1/aarch64/el1_loader.c:75-77 | exactly the pages of the range are gone |
| `Loader.MapImage` | el1/aarch64/el1_loader.c:51-54 | the whole image becomes readable at its own addresses and its contents are untouched |
| `Loader.CopyPage` | el1/aarch64/el1_loader.c:69-69 | a byte-wise copy through the tables on both sides succeeds if and only if both source pages are readable; then the page holds the image's bytes; no other frame changes |
| `Loader.CopySection` | el1/aarch64/el1_loader.c:67-70 | faults if and only if some source page cannot be read when its turn comes; otherwise every page of the section is on its own fresh frame and holds its part of the image; earlier data keeps its contents |
| `Loader.CopySections` | el1/aarch64/el1_loader.c:56-72 | faults if and only if the source of a named section does; otherwise after the loop every section whose name spells `.text` or `.data`, NUL-terminated, is in place at once |
| `Loader.LoadEl0` | el1/aarch64/el1_loader.c:23-81 | stops on a foreign image; faults in a section if and only if its source cannot be read; otherwise all sections whose names spell `.text` or `.data` are in place, the image is unmapped, and the final read of the entry point faults if and only if the image length is nonzero |
| `Loader.SameName` | el1/aarch64/el1_loader.c:61-62 | the comparison finds exactly the two names and reads no further than a difference or the terminating zero |
| `Loader.SectionFaultsIff` | el1/aarch64/el1_loader.c:67-70 | with nothing mapped behind the image, a section faults if and only if it is not empty and offset plus whole pages exceed the image's pages |
| `Loader.SectionReadsBack` | el1/aarch64/el1_loader.c:62-70 | every byte k < sh_size of a loaded section that the image contains reads back through translation at sh_addr + k, and EL0 can load and store it |
| `Loader.LoadKeepsOthers` | el1/aarch64/el1_loader.c:48-77 | pages outside pool, image and sections keep their mapping; no image page stays mapped |
| `ElfFiles.HeaderReads` | el1/aarch64/el1_loader.c:44-56 | from the bytes of an encoded Elf64_Ehdr the loader takes exactly its machine, entry and section header fields |
| `ElfFiles.SectionReads` | el1/aarch64/el1_loader.c:56-67 | from the bytes of an encoded Elf64_Shdr it takes exactly name, address, offset and size |
| `ElfFiles.AcceptedIff` | el1/aarch64/el1_loader.c:33-47 | an image is accepted if and only if it starts with 0x7F, E, L, F and its machine is 40 or 183 |
| `ElfFiles.FaultsIff` | el1/aarch64/el1_loader.c:67-70 | over the whole file, with nothing mapped behind it: a load faults in a section if and only if the whole pages of a nonempty .text or .data run past the image |
| `ElfFiles.LoadFile` | el1/aarch64/el1_loader.c:23-81 | over a file given by header and section headers: halts if and only if it is not ELF for Arm; otherwise, unless a copy faults, every byte of every section named .text or .data reads back at its address at EL1 and EL0, no address of the file can be reached, and every other address outside the pool translates as before |
| `Boot.BootWordReads` | common/aarch64/init_util.S:62-64 | a descriptor or-ed from properties and address is that page's |
| `Boot.BootMapper.MapVaToPa` | common/aarch64/init_util.S:34-68 | from physical accesses only: exactly the page is mapped, missing tables are added but not mapped, nothing outside the pool is written |
| `Boot.BootMapper.UnmapVa` | common/aarch64/init_util.S:72-99 | exactly the page is unmapped, or nothing where a table is missing |
| `Boot.BootMapper.MapPaRange` | common/aarch64/init_util.S:144-158 | every page of the rounded-up length is mapped to itself, one call each |
| `Boot.BootMapper.MapVaRange` | common/aarch64/init_util.S:161-175 | every page of the rounded-up length is mapped to the next fresh frame |
| `Boot.BootMapper.UnmapVaRange` | common/aarch64/init_util.S:178-192 | every page of the rounded-up length is unmapped |
| `Boot.RoundUp` | common/aarch64/init_util.S:147-148 | adding 0xFFF and clearing the low bits gives the number of pages that hold the length |
| `Boot.StepFlat` | common/aarch64/init_util.S:144-192 | a range call changes exactly the pages of its range, to identity pages, to mapped pages, or to nothing |
| `Boot.RangeFresh` | common/aarch64/init_util.S:161-175 | a range mapped by map_va_range is on distinct, ascending fresh frames, which are the data frames added |
| `Boot.BootEstablishes` | el1/aarch64/el1_init.S:110-115 | mapping the table region to itself, and leaving it alone afterwards, turns the boot invariant into the running one if at most 63 pool pages are used |
| `Startup.BootEl1` | el1/aarch64/el1_init.S:65-187 | EL1's script over zeroed pool memory hands the running manager a valid state; for every layout whose ranges do not meet: each byte of text, data and the page below each stack base is on a frame of its own, writable, only the EL0 stack open to EL0; init code, table region and UART are at their own addresses with their rights; the flash copies are gone |
| `Startup.BootEl3` | el3/aarch64/el3_init.S:72-130 | the same for EL3's script: nothing is open to EL0, the system registers are at their own address, and the flash stays, for reads |
| `Scripts.El1Leaves` | el1/aarch64/el1_init.S:65-187 | what EL1's script leaves, byte by byte and access by access, follows from its steps wherever the ranges do not meet |
| `Scripts.El3Leaves` | el3/aarch64/el3_init.S:72-130 | and what EL3's leaves |
| `Startup.HeapPage` | el3/el3.c:339-341 | a heap page of one page length: one page mapped, to the frame that was next, no other page outside the pool changed |
| `Startup.El3Start` | el3/el3.c:295-345 | the init segment is unmapped, control block and interop buffer are on two fresh frames, and the block holds the buffer's virtual and physical address |
| `Startup.El1Start` | el1/el1.c:270-288 | the init segment is unmapped, and EL1 maps the control block and, as that block says, the interop buffer; EL0 can load and store every byte of both |
| `System.PowerOn` | el1/el1.c:283-288 | from one memory with three zero pools: three managers whose invariants hold of that memory together, and one page at one address that all three translate to the same frame, byte for byte |
| `System.Serve` | tztest/tztest.c:92-105 | from reset on: the machine never halts, a long enough run serves every request, each dispatch that can run has run once and in order, the three regimes' tables in the one memory are those of the requests taken one after another, and the interop buffer is still shared |
| `Reset.CanPowerOn` | el1/aarch64/el1_init.S:65-187 | there is a platform, in zeroed memory, on which all that the power-on sequence requires holds, with hundreds of pool pages to spare |
| `Messages.HopAdvances` | el1/el1.c:66-70 | with val = orig >> count and no failure so far, a hop leads to the same with count + 1 |
| `Messages.HopsFail` | el1/el1.c:66-77 | from any descriptor, n hops halve the value n times, count n hops, and add one failure for each hop that found a value other than orig >> count |
| `Messages.FailsFirst` | el1/el1.c:66-77 | a test comes out without a failure if and only if its first hop found the right value: a right value stays right |
| `Messages.ClearEl3Works` | el3/el3.c:92-95 | clearing OP_MAP_EL3 leaves the secure-EL1 bit and stops the bounce |
| `ProtocolProof.ClientKeeps` | tztest/tztest.c:64-90 | a request's fields enter the descriptor intact, and a local test runs at once |
| `ProtocolProof.NsecHandlerKeeps` | el1/el1.c:81-188 | nonsecure EL1 passes the fields on, or carries the request out entirely |
| `ProtocolProof.MonitorForNsecKeeps` | el3/el3.c:101-212 | EL3 does its share and either returns or delivers the request to the parked server |
| `ProtocolProof.SecureLoopKeeps` | el0/secure/el0_sec.c:32-67 | the server does what it was sent, once, and moves towards its next yield |
| `ProtocolProof.SecureHandlerKeeps` | el1/el1.c:81-188 | secure EL1 maps, runs or forwards as named |
| `ProtocolProof.MonitorForSecureKeeps` | el3/el3.c:101-212 | a secure yield brings the nonsecure caller back; a dispatch to secure EL3 runs there |
| `ProtocolProof.StepKeeps` | el3/el3.c:101-212 | every step of the whole machine keeps the invariant and strictly lowers a rank until the client has finished |
| `ProtocolRuns.StartGood` | el0/secure/el0_sec.c:25-32 | the invariant holds when the secure server first starts |
| `ProtocolRuns.RunsAreAtomic` | tztest/tztest.c:92-105 | at every point of every run, the completed requests have had exactly the effect of single actions in order |
| `ProtocolRuns.RunsFinish` | tztest/tztest.c:92-105 | every run that is long enough serves every request, and ends in the state of the single actions |
| `ProtocolRuns.RunsSafe` | el0/secure/el0_sec.c:32-67 | every state of every run from the start: no shutdown; EL3's state variable equals SCR.NS and the live registers are that world's; while nonsecure code runs the secure context waits in its SMC; the server receives only YIELD, MAP, TEST or DISPATCH; finished interop tests came back with count 3 and fail 0 |
| `ProtocolLaws.ExactlyOnce` | tztest/tztest.c:75-90 | over every list, with and without existing targets: the log holds each dispatch that can run once, with its level, world and argument; each write to a register of EL1 or EL3 is made once; each request costs zero or two switches; the server is stuck exactly after an odd number of lost dispatches since the last other request to the secure world |
| `ProtocolLaws.DispatchTheorem` | tztest/tztest.c:75-105 | from boot, at every point of every run, exactly the tests of the completed requests that can run have run, and possibly the current one's; between requests exactly the register writes asked for have been made, and the saved secure context is parked or stuck as the list says |
| `ProtocolLaws.DispatchRunsIff` | el3/el3.c:120-128 | between two points of a run around a request, a test has run if and only if the request is a dispatch whose target exists and that stays nonsecure or finds the server parked |
| `ProtocolLaws.AllRun` | tztest/tztest.c:92-105 | where every target exists the server is never stuck and every named test runs |
| `ProtocolLaws.LostPair` | el0/secure/el0_sec.c:50-54 | a dispatch without a target costs the secure dispatch after it as well; two of them cost only themselves |
| `ProtocolLaws.MapEverywhere` | el1/el1.c:47-59 | for every page and kind of access: a request that names EL3 and secure EL1 leaves nonsecure EL1 as it was, takes two switches, and ends with one frame at all three levels if and only if nonsecure EL1 had the page, pa is not zero (or that frame is), and the server was parked or secure EL1 had the frame already |
| `ProtocolLaws.MapUnmapped` | el1/el1.c:52-54 | where nonsecure EL1 does not have the page, EL3 and a parked secure EL1 get an entry that reaches nothing in place of what they had |
| `ProtocolLaws.MapLocally` | el1/el1.c:56-58 | a map request that does not name EL3 gives nonsecure EL1 the frame asked for, for loads and stores, and changes nothing else |
| `ProtocolLaws.MapForMonitor` | el1/el1.c:49-55 | one that names EL3 but not secure EL1 changes EL3 alone, which ends with nonsecure EL1's frame, with frame zero where pa is zero, or with nothing where nonsecure EL1 has no page |
| `ProtocolLaws.RegisterAccess` | el1/el1.c:104-162 | every register call of nonsecure EL0 takes three steps, or five at EL3, no switch, and resumes its caller whatever is written; a read of one of the five keys at EL1 or EL3 delivers what the handler of that level finds in the register (for SCR, what was last written), any other leaves the field as sent; a write reaches the register once; nothing else changes but the descriptor and, at EL3, the buffer |
| `ProtocolLaws.ScrReadsBack` | el3/el3.c:136-197 | what a client writes to SCR its next request reads back if and only if SMD stays clear; otherwise no call reaches EL3 again |
| `ProtocolLaws.FlippedWrite` | el3/el3.c:120-128 | a write leaves EL3's variable equal to SCR.NS if and only if it keeps NS; if it clears NS, the next dispatch to secure EL3 ends in run_test's SVC from EL3, otherwise it goes to the secure world |
| `ProtocolLaws.ShutsDown` | el3/el3.c:109-203 | an SMC other than a dispatch shuts the machine down if and only if its operation is not one of those that EL3 serves; SMC_OP_NOOP returns and changes nothing |
| `ProtocolLaws.ExitStops` | el1/el1.c:88-90 | an exit request from either world stops the machine by way of EL1 |
| `ProtocolLaws.ServerExits` | el0/secure/el0_sec.c:32-62 | the secure server asks to exit if and only if it is woken with an operation that it does not know |
| `ProtocolLaws.FallThroughHarmless` | el3/el3.c:129-166 | the exact condition under which the fall-through into the register read leaves the interop test intact |
| `Machines.Machine.ReadBuf` | el1/el1.c:93-93 | what is read at the buffer's address through any of the three regimes' tables is what the shared frame holds |
| `Machines.Machine.WriteBuf` | el1/el1.c:65-65 | a store through any regime's tables changes the buffer for all three and breaks no regime's invariant |
| `Machines.Machine.MapPage` | common/aarch64/mem_util.c:38-68 | a map by one regime adds its page there; the other two regimes' tables and the interop buffer, in the same memory, stay as they were |
| `Machines.Machine.El1MapSecure` | el1/el1.c:47-59 | on real tables and the buffer in memory: a request for EL3 goes out with a nonzero pa replaced by the caller's own translation; any other is mapped here, and the page is then open to EL0 and EL1 at every offset; nothing else of the state changes |
| `Machines.Machine.El1HandleSvc` | el1/el1.c:81-188 | up to its SMC, every arm has the effect of the protocol's step on the whole state, the buffer in memory included; a read of one of EL1's five registers puts its value in the descriptor and changes no other field, a write is made once |
| `Machines.Machine.El3MapMem` | el3/el3.c:85-99 | maps into EL3's real tables, for EL3 at every offset and not for EL0, clears the EL3 bit in the buffer in memory exactly when secure EL1 is asked for, and says whether to switch |
| `Machines.Machine.El3HandleSmc` | el3/el3.c:101-212 | every arm, the fall-through included, and the switch or return that follows, has the effect of the protocol's step |
| `MachineRuns.PoolUse` | el3/el3.c:85-99 | requests take at most three pool pages per map in each address space, and only map requests take any |
| `MachineRuns.Run` | tztest/tztest.c:92-105 | every run of the object machine is a run of the protocol on real tables in one memory; it never lacks room or faults if the request list fits |
| `MachineRuns.RunThrough` | tztest/tztest.c:92-105 | stopped where a request completes, the client is between requests and the state is that of the requests so far |
| `MachineRuns.TablesAgree` | el1/el1.c:56-58 | an access through a regime's tables reaches exactly the frame that its space says |
| `MachineRuns.MapAllLevels` | el1/el1.c:47-59 | run until a map request for all levels completes: for every address of the page and either kind of access, the walks through the three regimes' tables in memory end at one byte under exactly the condition above, and with no page at nonsecure EL1 they end nowhere |
| `Monitor.Cpu.SaveState` | el3/aarch64/el3_monitor_asm.S:35-66 | the buffer holds the live context; only x1 and x2 are used on the way |
| `Monitor.Cpu.RestoreState` | el3/aarch64/el3_monitor_asm.S:68-99 | the live context is the buffer's; x0 and x3 survive |
| `Monitor.Cpu.MonitorSwitch` | el3/aarch64/el3_monitor_asm.S:108-131 | the running world's context is saved whole, the other's restored whole, x0 to x3 pass through, SCR becomes the other NS value |
| `Monitor.Cpu.Rounds` | el3/aarch64/el3_monitor_asm.S:108-131 | over any number of switches with arbitrary register changes between them, each world gets back exactly what it had at its last switch out |
| `MonitorRefines.SwitchRefines` | el3/aarch64/el3_monitor_asm.S:108-131 | under any encoding of contexts in registers, the register swap and the SCR write are the protocol's swap of contexts and flip of NS |
| `Strings.Memmove` | libcflat/string.c:85-99 | for every overlap, the destination ends with the source's original contents and nothing else changes |
| `Strings.Atol` | libcflat/string.c:111-140 | the value denoted by blanks, an optional sign and the longest run of digits |
| `Printf.PStream.AddChar` | libcflat/printf.c:14-21 | one more character of ideal output; the buffer holds as much of it as fits, the rest of the buffer is untouched |
| `Printf.PStream.PrintStr` | libcflat/printf.c:23-47 | a field: right-justified with the pad character or left-justified with blanks |
| `Printf.PStream.PrintInt` | libcflat/printf.c:51-83 | a number's field, and its digits stay inside the 26-character buffer |
| `Printf.PStream.PrintUnsigned` | libcflat/printf.c:85-110 | the same inside 25 characters |
| `Printf.NumberBuffer` | libcflat/printf.c:53-80 | the reversed digit loop leaves the number's text, sign first, and a NUL |
| `Printf.DigitCount` | libcflat/printf.c:53-64 | a number below base^k has at most k digits |
| `Printf.ReverseIndex` | libcflat/printf.c:72-78 | what the in-place reversal puts at each index |
| `Printf.Fmtnum` | libcflat/printf.c:112-126 | the number read, as an int keeps it, and the characters consumed |
| `Printf.MoreFmt` | libcflat/printf.c:146-169 | the goto loop consumes format characters each time round and ends at a conversion, with the last width an int kept |
| `Printf.Vsnprintf` | libcflat/printf.c:128-211 | the buffer holds the first min(size-1, L) characters of the ideal output of length L, then NUL; nothing else is written; the result is L + 1 |
| `RoundTrip.DigitsDenote` | libcflat/printf.c:61-64 | the printed digits of n denote n |
| `RoundTrip.DenotesParts` | libcflat/string.c:111-140 | any blanks and tabs, an optional sign of either kind, digits or none, and anything that does not go on with them, parse to the digits' value, negated after a minus sign |
| `RoundTrip.PrintParse` | libcflat/string.c:111-140 | a number printed in a decimal field parses back to itself if and only if the padding is blank, the number is not negative, or there are no zeros before it |
| `RoundTrip.FormatField` | libcflat/printf.c:158-173 | for every flag and every width below 2^63, the format `%`, flag, width in decimal, `d` prints the number in the field that the width becomes in an int |
| `RoundTrip.FieldAsAsked` | libcflat/printf.c:112-126 | that is the field asked for if and only if the width is below 2^31, or is 2^31 and left-justified |
| `RoundTrip.FieldRoundTrip` | libcflat/printf.c:128-211 | the output parses back to the number if and only if no zeros precede a minus sign |
| `RoundTrip.FieldWidth` | libcflat/printf.c:23-47 | a field is max(width, length) characters long |
| `Formats.NumbersSpell` | libcflat/printf.c:49-110 | in every base up to sixteen, what is printed for a number is its numeral: digits that denote it under a table of digit values, no leading zero, a minus sign for negative numbers |
| `Formats.NumeralUnique` | libcflat/printf.c:49-110 | a number has only one numeral |
| `Formats.DecimalDigits` | libcflat/string.c:128-133 | the characters that the parser takes are the ten digits, at their values |
| `Formats.ValueDenotes` | libcflat/string.c:128-133 | the parser's value of a run of digits is the number that they denote in base ten |
| `Formats.FormatMeans` | libcflat/printf.c:128-211 | every format spelled from plain characters and conversions, with any flag, width below 2^31 and any number of `l`s, in front of any other format, prints the meanings of its pieces in order: `s` the string itself in its field, `d` and `x` the numeral in its field, `p` its two parts each in a field, `c` the character, `%` and unknown letters themselves |
| `Formats.ShiftFormat` | libcflat/printf.c:128-211 | a format prints the same when it stands behind another |
| `Formats.Concatenation` | libcflat/printf.c:128-211 | for any two formats, the output of one after the other is one output after the other, if the first does not end inside a conversion |
| `Formats.NoConversions` | libcflat/printf.c:141-145 | a format without `%` comes out as itself |
| `Formats.LastPercent` | libcflat/printf.c:155-157 | a `%` at the end of a format prints nothing and takes no argument |
| `ArmTables.TranslateIsFlat` | common/arm/mem_util.c:38-65 | the short-descriptor walk gives exactly what the flat map says |
| `ArmTables.L1Reachable` | common/arm/mem_util.c:48-51 | every first-level entry is reached at its own address through the tables |
| `ArmTables.L2Reachable` | common/arm/mem_util.c:58-61 | every second-level entry is, too |
| `ArmTables.LinkKeepsInv` | common/arm/mem_util.c:52-55 | linking a zero, self-mapped frame as a table keeps the invariant |
| `ArmTables.LeafStoreKeepsInv` | common/arm/mem_util.c:58-61 | setting or clearing a page's entry keeps it |
| `ArmTables.StartInv` | common/arm/mem_util.c:38-65 | the invariant holds of a direct-mapped start, whatever the base and the pool's length within a megabyte |
| `ArmManager.Manager.MapPa` | common/arm/mem_util.c:38-65 | terminates through its own recursion; exactly the page and at most one table's identity page are added |
| `ArmManager.Manager.MapVa` | common/arm/mem_util.c:67-72 | the page is mapped to a fresh frame |
| `ArmManager.Manager.UnmapVa` | common/arm/mem_util.c:74-100 | -1 and no change if and only if the second-level table is missing; otherwise the page is unmapped |
| `ArmManager.Manager.LookupPa` | common/arm/mem_util.c:116-138 | for every address the word returned: the error word, the physical address with its offset, or the offset alone for an unmapped page under a present table; wherever the hardware can read, the address that it reads |
| `ArmManager.ErrorWord` | common/arm/mem_util.c:127-138 | the word is the error word if and only if the table is missing, or the page is mapped to the last frame and the offset is 0xFFF |
| `ArmManager.MappedTranslates` | common/arm/mem_util.c:38-65 | after a map the hardware reaches the new page at every offset, from PL0 exactly when AP[1] is set, and every other page as before except the one new table's |
| `ArmFlatMap.Execute` | common/arm/mem_util.c:38-138 | over every sequence of calls that the pool has exactly enough room for: the same flat map, and every answer determined by the state at that point |
| `ArmFlatMap.ErrorsVanish` | common/arm/mem_util.c:74-138 | once any page under a first-level entry has been mapped, unmap never fails there and lookup yields the error word only as the address of the last byte of the last frame |

## Left out

- Caches, TLBs and barriers: memory and tables are seen at once, so a stale translation is not modelled.
- `Loader.CopyPage`: what a source page behind the image holds, where one happens to be mapped, is not said; device memory reads as zero.
- `Loader.LoadEl0`: the final read is judged by the tables alone; a stale translation could still let it succeed on a real processor.
- Exception vectors, fault decoding and handlers (el1/el1.c:190-268, el3/el3.c:214-293), exception logging, the UART, `puts` and shutdown registers.
- Test bodies: a test is an event that may leave anything in the interop buffer and in SCR's bits other than NS and SMD. The event stands for run_test's local branch; whether the image has a test of that number (tztest/tztest.c:80) is not modelled.
- SVC_OP_ALLOC and SVC_OP_GET_SYSCNTL as calls in the protocol; the heap and the control block behind them are modelled.
- The server's start-up calls before its loop (el0/secure/el0_sec.c:72-90), and the EL0 stack set-up.
- `Machines.Machine.El1HandleSvc`: registers at EL1 are not state of the protocol: a read finds any value, a write is an event in a log. That EL1 traps when it accesses a register of EL3 is not modelled.
- `Machines.Machine.El3HandleSmc`: of the registers that EL3 writes, only SCR is state, and it keeps whatever is written; writes to the others are events in the log. Shutdown is a final state, although some machines do not stop.
- The `pa` of a map request is an argument of the request, since el0/el0.c:33-41 leaves that field unset; `len` is not used by the code and not modelled.
- `System.Serve`: the EL0 images' loading is proved separately in `Loader` and is not part of this sequence.
- The pool pointer word at RAM_BASE + 0x2000 and the boot stack are variables outside the modelled memory; the boot code's copying of text and data is left out.
- `map_va_to_pa_range` (common/aarch64/init_util.S:124-141), which no caller uses.
- `monitor_restore_state` before the first entry of the secure world; `Monitor` starts with arbitrary buffers.
- The 32-bit boot and monitor assembly, and the two-level manager's `mem_heap_allocate`, which is the same loop as the four-level one.
- `AddressSpaces.AddressSpace.MapPa`: attributes are limited to the descriptor's low twelve bits; the upper attributes (UXN, PXN, table attributes) are not modelled.
- Frames are below 2^20, as TCR's 32-bit physical address size says; numbers do not wrap at 64 bits, so address sums are assumed not to overflow.
- `Strings.Atol`: a number too long for `long` overflows in C, which is undefined; the model does not wrap.
- `Printf.Vsnprintf`: sizes below 1 and arguments of the wrong type are excluded; `l` modifiers only select the argument's width, which is covered by its stated range; the smallest `long long`, whose negation overflows, is excluded.
- The copies of a test descriptor to and from the interop buffer run past the end of the caller's 24-byte structure; the extra words count as the caller's own.

# HuseynOS in Dafny

A model of the HuseynOS kernel's memory management, scheduling, message
passing, shared memory and file storage, and of the script that builds its boot
image, with proofs of the properties that hold them together.

## What is modelled

* **Physical memory** (`bits`, `bytes`, `frame`, `pagetree`, `translation`,
  `mapping`, `hardware`, `paging`). A flat byte array holds everything. The frame allocator
  is a bitmap; the page tables are 64-bit words in that memory, read and written
  in place. Four-level paging follows section 4.5 of the Intel Software Developer's
  Manual, volume 3A. The main result is that this radix tree refines a map from
  pages to frames for each address space.
* **User memory** (`vma`, `elf`, `image`, `loader`, `stackfile`, `ownership`,
  `world`, `loss`, `usermemory`). Region placement, the ELF loader, demand paging,
  sbrk, mmap, munmap and the reclamation at exit. Each operation is proved to be a
  step of a small memory system, over whose runs frames stay isolated and lost
  frames are counted exactly. The loader follows chapter 5 of the System V gABI.
* **Processes and messages** (`process`, `ipc`, `system`, `progress`, `calls`, `restart`,
  `kernel`). Each interrupt or system call is one atomic step, because every gate is an
  interrupt gate (kernel/src/idt.rs:43). `System.Step` is the specification; `calls`
  proves what each step does to the slots of the process table and to the queues. The
  classes of `kernel` are the imperative handlers, each proved to take that step.
  Invariants and progress are proved about runs of the steps, up to the restarted
  call that gets its message or exit code.
* **The boot image** (`fattable`, `fatnames`, `fatlayout`, `fatimage`,
  `fatvolume`, `fatroundtrip`). The image builder and the kernel's independent
  reader of the same bytes, joined by a round trip. The format is FAT12 of the
  "FAT: General Overview of On-Disk Format" (fatgen103).
* **Files** (`store`, `vfs`). Written files and tombstones over the mounted
  image refine a map; the descriptor table sits on top of it.
* **Shared memory** (`shm`). Regions as owners of frames.

Static tables of the kernel become fields of classes, their loops become loops
with invariants. Process records, regions and descriptors are values held in
array slots or vectors, as they are in the kernel. Page-table ownership (`lab`), the
pool and the kernel tables of `Machine` are ghost: the code never reads them.

## What is assumed

* User addresses are below the canonical hole, and 64-bit sums do not wrap. The
  members that need it say so (`NoWrap`, `Loadable`, `FileOk`, `IsUser`).
* The user half has no huge pages; kernel-half huge pages are walked. The processor has
  52 physical address bits.
* Map arguments are page-aligned, and flags stay clear of the address bits and
  of the huge-page bit.
* A failed table allocation halts the kernel (`expect`). A method reports it as
  `ok == false` or `halted`.
* Each program header that the loader reads lies in the file, although the check is
  made with the entry size of the file (`Loader.HeadersIn`), and so do file ranges.
* The file store runs in Live RAM mode, without a physical disk.
* File names are ASCII, without a zero byte where they are packed; upper-casing
  is letter by letter.
* The files packed into an image fit it: at most 223, on at most 2847 clusters.
* A mounted image is one that the reader can follow without leaving it.

## Where the code differs from its descriptions

* The boot total of frames counts a frame once per usable region that holds it.
  It is exact if and only if the regions do not overlap (`Frames.InitCountsExactly`).
* A file whose name is not an 8.3 name is packed, but no image finds it, or any
  other file, under that name (`FatRoundTrip.LongNameIsMissing`).
* Page tables are never freed. An exit leaves all tables of the process in use, the
  PML4 among them, and so does a load that installs no process (`Losses.ExitBuriesTree`,
  `Losses.LoadBuriesTree`); they stay so in every run (`Losses.BuriedForGood`).
* Frames are lost: in use, but no page table and mapped by no live process. A lost
  frame never comes back (`Losses.LostForGood`), and a step loses one exactly in
  the cases of `Losses.LosesIff`. SYS_MUNMAP of a mapped page loses its frame
  (`Losses.OnePageLoses`). So would a fault on a page that is already mapped, but the
  processor raises none, since every page grants every access
  (`UserMemory.MappedPageGrants`).
* A load that fails without halting the kernel loses exactly the frames of the
  pages it had mapped or replaced, and a load into a full process table as well
  (`Loader.ElfLoader.LoadElf`).
* The lookup keeps bits 12 and up of a huge entry in the page base, where the processor
  takes bits 21 or 30 and up and reads bit 12 as the PAT bit. The exact condition under
  which the two agree is `Hardware.LookupIsHardwareIff`; `Hardware.PatEntryDiffers` is an
  entry at which they differ.
* A message that wakes a parent out of its wait can cost it the exit code
  (`Restart.MessageLosesCode`, `Restart.CodeKeptIff`).
* Shared memory is freed by a counter, and the frames can still be mapped
  (`SharedMemory.LentRegionIsFreed`); the exact conditions are
  `SharedMemory.ExitFreesMappedIff` and `SharedMemory.UnmapFreesMappedIff`.
* The first two stack pages are mapped over whatever a segment put there, and the
  frame of a replaced page is lost. Memory is the image of the file if and only if
  the image is zero on those pages (`Loader.ImageWholeIff`); `StackFile.FileNotWhole`
  is a file for which it is not.

## Model

| member | source | states |
|---|---|---|
| `Frames.BitCleared` | kernel/src/memory/frame.rs:32-38 | Clearing one bit of the bitmap frees that frame and no other |
| `Frames.BitRaised` | kernel/src/memory/frame.rs:40-46 | Setting one bit takes that frame and no other |
| `Frames.FrameAllocator.constructor` | kernel/src/memory/frame.rs:24-30 | A new allocator has no free frame |
| `Frames.FrameAllocator.MarkFree` | kernel/src/memory/frame.rs:32-38 | The set of free frames gains exactly this frame, or nothing past the bitmap |
| `Frames.FrameAllocator.MarkUsed` | kernel/src/memory/frame.rs:40-46 | The set of free frames loses exactly this frame |
| `Frames.FrameAllocator.Alloc` | kernel/src/memory/frame.rs:58-72 | The lowest free frame leaves the free set and the used count rises by one; failure exactly when no frame is free |
| `Frames.FrameAllocator.Dealloc` | kernel/src/memory/frame.rs:74-82 | A frame in use returns to the free set; a free frame or one past the bitmap changes nothing |
| `Frames.FrameAllocator.Init` | kernel/src/memory/frame.rs:90-130 | The free set gains exactly the frames, from 1 MiB up to the end of the bitmap, that lie as a whole in a usable region; the total counts a frame once for each such region |
| `Frames.FrameAllocator.MarkSpan` | kernel/src/memory/frame.rs:110-118 | The marking loop frees and counts exactly the representable frames of one region |
| `Frames.InitCountsExactly` | kernel/src/memory/frame.rs:94-123 | The boot total equals the size of the free set if and only if no frame lies in two usable regions; no frame below 1 MiB is ever free |
| `Frames.UsableIffOffered` | kernel/src/memory/frame.rs:94-118 | A frame is usable if and only if it lies as a whole in a usable region, from 1 MiB up to the end of the bitmap |
| `Frames.OffersCounted` | kernel/src/memory/frame.rs:94-118 | The count of the boot loop is the number of pairs of a region and a frame that it offers |
| `Frames.AccountedStep` | kernel/src/memory/frame.rs:58-82 | Each allocation or release keeps the used count equal to the number of frames taken |
| `Frames.RunConservesFrames` | kernel/src/memory/frame.rs:58-123 | Over every run that releases frames of the pool, used plus free is the boot total |
| `PageTree.TableEntryFields` | kernel/src/memory/paging.rs:77-83 | A fresh table entry is present, not huge, restricts no access, and leads to the frame stored in it |
| `PageTree.LeafEntryFields` | kernel/src/memory/paging.rs:87-90 | A leaf entry leads to the frame it was given whatever its flags, and grants exactly the accesses that its flags grant |
| `PageTree.IndexValue` | kernel/src/memory/paging.rs:61-66 | The shifted and masked indices are the base-512 digits of the page number |
| `PageTree.LowIndex` | kernel/src/memory/paging.rs:127-131 | The four indices and the page offset are those of the low 48 bits of the address |
| `PageTree.SlotsDeterminePage` | kernel/src/memory/paging.rs:61-66 | Two user addresses with the same four indices lie on the same page |
| `Translation.WalkMisses` | kernel/src/memory/paging.rs:127-164 | A write to a slot that is not on the path of an address leaves its translation alone |
| `Translation.WalkThroughLink` | kernel/src/memory/paging.rs:76-84 | Linking an empty table changes no translation |
| `Translation.KernelWalkSame` | kernel/src/memory/paging.rs:127-164 | Writes outside the kernel tables leave every kernel-half walk alone |
| `Translation.PathLabels` | kernel/src/memory/paging.rs:68-85 | Every table on the path of a user address has exactly one place in the tree |
| `Translation.PathStable` | kernel/src/memory/paging.rs:68-85 | A write at or below a level leaves the path above it alone |
| `Translation.WalkOfLow` | kernel/src/memory/paging.rs:127-164 | A walk depends on the low 48 bits of the address only |
| `Mapping.TranslateByPage` | kernel/src/memory/paging.rs:127-164 | The tree refines a map from pages to frames: every user address translates to the frame of its page plus its offset, or to nothing |
| `Mapping.LinkWrite` | kernel/src/memory/paging.rs:77-83 | Linking a zeroed table keeps the tree invariant and every address space |
| `Mapping.LeafWrite` | kernel/src/memory/paging.rs:87-90 | Writing one leaf entry updates or removes exactly one page of one address space, frame and flags, and keeps the tree invariant |
| `Mapping.DataWrite` | kernel/src/process.rs:266-280 | Writing into a frame that is no page table changes no translation |
| `Hardware.WalksMeet` | kernel/src/memory/paging.rs:127-164 | Below the root the processor ends at the same entry as the code, and faults there on a reserved bit |
| `Hardware.LookupIsHardwareIff` | kernel/src/memory/paging.rs:147-155 | The lookup is the translation of the processor exactly under the condition of GetMappedFrame |
| `Hardware.UserLookupIsHardware` | kernel/src/memory/paging.rs:127-164 | In the user half the lookup is the translation of the processor for every address |
| `Hardware.PatEntryDiffers` | kernel/src/memory/paging.rs:152-155 | A 2 MiB entry with bit 12, the PAT bit of a huge page, is read one page too high |
| `Hardware.AccessByPage` | kernel/src/memory/paging.rs:80-88 | The access rights of a user address are those of its page-table entry: the tables above restrict nothing |
| `Hardware.MappedAccess` | kernel/src/memory/paging.rs:87-90 | A page mapped with given flags grants exactly their accesses |
| `Paging.Machine.constructor` | kernel/src/memory/paging.rs:198-201 | The machine at boot: no user address space, the boot loader's kernel tables, every usable frame free |
| `Paging.Machine.Store` | kernel/src/memory/paging.rs:80-81 | A raw write changes exactly the bytes written |
| `Paging.Machine.ReadWord` | kernel/src/memory/paging.rs:71-72 | A table word is the little-endian word at its slot |
| `Paging.Machine.WriteData` | kernel/src/process.rs:255-280 | A write into a frame in use that is no table keeps all tables and translations |
| `Paging.Machine.AllocFrame` | kernel/src/memory/frame.rs:132-135 | The lowest free frame moves from the free set to the frames in use |
| `Paging.Machine.FreeFrame` | kernel/src/memory/frame.rs:137-140 | The frame joins the free set; a second return of it changes nothing |
| `Paging.Machine.LinkNewTable` | kernel/src/memory/paging.rs:77-83 | A new table is taken from the pool, zeroed and linked; every address space stays the same |
| `Paging.Machine.Descend` | kernel/src/memory/paging.rs:70-85 | One level down the path, with at most one new table |
| `Paging.Machine.MapPageInTable` | kernel/src/memory/paging.rs:60-97 | Exactly one page is set to the given frame with the given flags, every other page of every address space and every kernel entry is unchanged, the processor grants on it exactly the accesses of the flags, the tree invariant is kept, and at most three table frames are taken, all for this space; failure only when no frame is left |
| `Paging.Machine.WriteLeaf` | kernel/src/memory/paging.rs:87-90 | The last step of a map or unmap: one page of one address space |
| `Paging.Machine.GetMappedFrame` | kernel/src/memory/paging.rs:127-164 | Lookup returns the walk of the code for every 64-bit address, kernel half included; it is the translation of the processor if and only if the huge entry at which it ends, if any, has no base bit below its page size, and the PML4 entry lacks bit 7 |
| `Paging.Machine.UnmapPage` | kernel/src/memory/paging.rs:167-192 | Exactly one page of the active address space is removed, every other entry and its flags stay |
| `Paging.Machine.CopyKernelSlots` | kernel/src/memory/paging.rs:118-120 | The copying loop fills slots 256 to 511 from the active table |
| `Paging.Machine.CreateUserPageTable` | kernel/src/memory/paging.rs:105-124 | The new table translates every kernel-half address, any 64-bit address with bit 47 set, as the active one does and no user address, and leaves all other address spaces alone |
| `Paging.TablesGrewTwice` | kernel/src/memory/paging.rs:70-90 | Table work composes: tables are only added, each takes one free frame, no byte outside the tables changes |
| `Vmas.PageRounding` | kernel/src/vma.rs:108-109 | The masks round down and up to whole pages |
| `Vmas.FindVmaCovers` | kernel/src/vma.rs:96-98 | The search finds a region if and only if some region covers the address |
| `Vmas.EndingAboveFalls` | kernel/src/vma.rs:115-133 | Moving the candidate past a conflicting region lowers the number of regions that end above it |
| `Vmas.FindFreeRegion` | kernel/src/vma.rs:107-134 | Terminates on every list and returns the lowest page-aligned address at or above the hint that conflicts with no region, or nothing exactly when none fits below the limit |
| `Elf.PhdrRoundTrip` | kernel/src/elf.rs:25-35 | A program header is read back from its encoding |
| `Elf.SegmentsRoundTrip` | kernel/src/elf.rs:90-109 | From any file that holds an encoded header table, whatever its entry size, exactly its PT_LOAD headers are read, in order |
| `Elf.HeaderIff` | kernel/src/elf.rs:48-81 | A file is accepted if and only if it has the 64 bytes of a header with the magic number, 64-bit class, little-endian order and type 2 or 3 |
| `Elf.HeaderRoundTrip` | kernel/src/elf.rs:6-21 | A file header is read back from its encoding: entry point, table offset, entry size and entry count |
| `Elf.EntriesFollow` | kernel/src/elf.rs:90-98 | The table starts at e_phoff, and its entries are e_phentsize bytes apart |
| `Elf.CutTable` | kernel/src/elf.rs:96-105 | A table cut off by the end of the file is read up to the cut |
| `Loader.FileRoundTrip` | kernel/src/elf.rs:48-109 | From the encodings of a file header and of the program headers that it counts, exactly the PT_LOAD ones are loaded, in order |
| `Loader.AreasAre` | kernel/src/process.rs:218-295 | The areas of a new process cover the whole pages of each segment and the stack, and nothing else |
| `Loader.AreaRights` | kernel/src/process.rs:231-244 | An area may be written or executed exactly as the PF_W and PF_X bits of its segment say |
| `Loader.HeapAboveSegments` | kernel/src/process.rs:314 | The heap of a new process starts on the first page boundary at or above the end of every segment |
| `ElfImage.ImageUncovered` | kernel/src/process.rs:247-283 | Bytes of pages that no segment touches are zero in the image |
| `ElfImage.ImageUpTo` | kernel/src/process.rs:218-283 | For byte-disjoint segments the image after n segments holds the file bytes of those and zero elsewhere in them |
| `ElfImage.ImageOfSegment` | kernel/src/process.rs:266-280 | For byte-disjoint segments the image at vaddr+i is file byte offset+i below filesz and zero from there to memsz |
| `Loader.ElfLoader.constructor` | kernel/src/process.rs:205-213 | The loader works on the kernel's address spaces |
| `Loader.ElfLoader.PageFor` | kernel/src/process.rs:248-264 | The frame of a page: the one already mapped, or a new zeroed one mapped there; a failure that does not halt changes nothing and leaves no frame free |
| `Loader.ElfLoader.NewPage` | kernel/src/process.rs:250-264 | A new page is mapped to a frame nothing owned, and reads as zero; without a halt it fails exactly when no frame is free |
| `Loader.ElfLoader.CopyPart` | kernel/src/process.rs:266-280 | The part of the segment on one page is copied into its frame, byte for byte, and nothing else |
| `Loader.ElfLoader.FillPage` | kernel/src/process.rs:247-282 | One round of the copy loop extends the loaded image by exactly one page of the segment, shared pages included |
| `Loader.ElfLoader.LoadSegment` | kernel/src/process.rs:224-282 | The page loop loads exactly one more segment of the image |
| `Loader.ElfLoader.LoadSegments` | kernel/src/process.rs:218-283 | The loaded bytes are exactly the image of all segments, later segments over earlier ones |
| `Loader.ElfLoader.LoadStack` | kernel/src/process.rs:297-312 | The stack pages read as zero over whatever the segments left there, every other byte stays the image, and the replaced frames are accounted for; fewer than two pages only when no frame is left |
| `Loader.ElfLoader.LoadStackPage` | kernel/src/process.rs:298-311 | One zeroed stack page in its place, or none exactly when no frame is free |
| `Loader.ElfLoader.NewSpace` | kernel/src/process.rs:213 | A fresh, empty address space under construction |
| `Loader.ElfLoader.BuildSpace` | kernel/src/process.rs:213-312 | The finished space holds the image under its stack pages, and the frames taken are exactly those it maps and those replaced; a failure without a halt leaves no frame free |
| `Loader.ElfLoader.LoadElf` | kernel/src/process.rs:205-378 | Rejects exactly the files without a valid header, spends one pid otherwise, and installs a process whose space holds the program image under its stack pages; other address spaces and bytes in use are unchanged; the frames lost are exactly the replaced ones, and those of the new space when no process comes of it, whose page tables are then dead; an installed process loses a frame if and only if a segment lies on a pre-mapped stack page; it is enrolled in the first free slot with the next pid, and starts at the e_entry of the file |
| `Loader.ElfLoader.Enroll` | kernel/src/process.rs:343-375 | The record enters the first free or Empty slot: Ready, at the entry point, with all other registers zero, in the new space; without such a slot the frames of the new space are lost and its page tables dead |
| `Loader.StackGrows` | kernel/src/process.rs:298-311 | Mapping the next stack page keeps the space finished: zeros there, the image elsewhere |
| `Loader.StackPageAdded` | kernel/src/process.rs:298-311 | The same with the frames accounted for: the frame of a replaced segment page leaves the space |
| `Loader.LoadLoses` | kernel/src/process.rs:205-378 | A load loses the replaced frames, and those of the new space when it installs no process |
| `Loader.LoadBuries` | kernel/src/process.rs:263-378 | The page tables of a load that installs no process are dead, the PML4 among them |
| `Loader.InstalledLosesIff` | kernel/src/process.rs:297-312 | An installed process costs a frame if and only if one of its segments lies on a pre-mapped stack page |
| `Loader.FailedLosesIff` | kernel/src/process.rs:247-320 | A load that installs no process costs a page frame if and only if it had mapped a page |
| `Loader.CopiedPageImage` | kernel/src/process.rs:266-280 | Copying the part on one page advances the image by that page |
| `Loader.LoadMoves` | kernel/src/process.rs:205-378 | Loading is one memory step that only adds pages over frames that nothing owned |
| `Loader.ProgramBytes` | kernel/src/process.rs:218-312 | In the finished space vaddr+i reads as file byte offset+i below filesz and as zero up to memsz, across unaligned starts and shared pages, except on the stack pages, where it reads as zero |
| `Loader.SegmentWholeIff` | kernel/src/process.rs:266-311 | A segment is in memory whole if and only if each of its file bytes on a pre-mapped stack page is zero |
| `Loader.ImageWholeIff` | kernel/src/process.rs:297-312 | A finished space is the image of the file if and only if the image is zero on the pre-mapped stack pages |
| `Loader.ReplacedPageIff` | kernel/src/process.rs:298-311 | Replacing one page of a loaded image keeps the image if and only if the image is zero on that page |
| `StackFile.FileIsOk` | kernel/src/elf.rs:48-109 | A 120-byte file with one segment on a stack page passes every check of the loader |
| `StackFile.FileNotWhole` | kernel/src/process.rs:297-312 | The byte of that file reads as zero in its finished space, where the file says 0x7F |
| `Ownership.MapOwned` | kernel/src/idt.rs:233-246 | Mapping a frame that nothing owns keeps isolation |
| `Ownership.RetireOwned` | kernel/src/process.rs:425-436 | Freeing frames of one space frees none of another |
| `Ownership.FrameIsOwnedOnce` | kernel/src/idt.rs:233-246 | A frame mapped at a page of a live process is in use, is no page table, and is mapped at no other page of any live process |
| `Ownership.OwnAfterExit` | kernel/src/process.rs:407-450 | The frames that an exit frees belong to no surviving process |
| `Ownership.OwnAfterInstall` | kernel/src/process.rs:368-373 | Installing a process over frames of its own keeps isolation |
| `Worlds.MoveKeepsIsolation` | kernel/src/syscall.rs:176-245 | Fault, sbrk, mmap, munmap, exit and load each keep every frame owned at most once |
| `Worlds.MoveSparesOthers` | kernel/src/syscall.rs:176-245 | None of them changes a page of another process, or a byte behind one |
| `Worlds.RunKeepsIsolation` | kernel/src/syscall.rs:176-245 | Isolation holds in every state of every run of these steps |
| `Worlds.FramesNeverShared` | kernel/src/process.rs:205-450 | In every reachable state two pages of live processes have the same frame only if they are the same page of the same process |
| `Losses.MoveLoses` | kernel/src/syscall.rs:229-245 | Each memory step loses exactly the frames named for it, none of which was lost before |
| `Losses.LosesIff` | kernel/src/idt.rs:233-246 | A step loses a frame if and only if it is a fault on a mapped page, an unmapping of a mapped page, or a load that keeps a frame out of the space of a process; an exit loses page tables only |
| `Losses.LostForGood` | kernel/src/process.rs:205-450 | A frame in use that no live process maps stays so in every later state of every run |
| `Losses.LossesAddUp` | kernel/src/process.rs:205-450 | The number of lost frames after a run is the sum of what its steps lost |
| `Losses.MoveBuries` | kernel/src/process.rs:407-450 | Each memory step leaves exactly the page tables named for it without a process; none of them was dead before |
| `Losses.ExitBuriesTree` | kernel/src/process.rs:425-446 | An exit leaves every page table of the process in use, the PML4 among them |
| `Losses.LoadBuriesTree` | kernel/src/process.rs:263-378 | A load that installs no process leaves all its page tables in use, the PML4 among them |
| `Losses.RootStaysDead` | kernel/src/process.rs:205-450 | A root that no live process has is never live again in any run, and its tables stay |
| `Losses.BuriedForGood` | kernel/src/process.rs:205-450 | A dead page table is dead in every later state of every run |
| `Losses.BurialsAddUp` | kernel/src/process.rs:205-450 | The number of dead tables after a run is the sum of what its steps buried |
| `Losses.FramesInUse` | kernel/src/memory/frame.rs:58-82 | The used count is the number of page tables of live processes, page tables of dead ones, frames mapped by live processes, and lost frames together |
| `Losses.OnePageLoses` | kernel/src/syscall.rs:235-239 | One process with one page: munmap loses its frame, and so would serving a second fault on the page |
| `UserMemory.AddressSpaces.constructor` | kernel/src/process.rs:191-202 | No process and no user space at boot |
| `UserMemory.AddressSpaces.MapUserPage` | kernel/src/idt.rs:240-245 | Mapping a user page changes one page of one space and moves no frame in or out of use |
| `UserMemory.AddressSpaces.MapForProcess` | kernel/src/idt.rs:240-245 | The same for a page inside an area of a process |
| `UserMemory.AddressSpaces.PageFault` | kernel/src/idt.rs:225-267 | Served exactly when the address is in an area and a frame is free: the page gets the lowest free frame, zeroed; otherwise nothing changes |
| `UserMemory.AddressSpaces.ServeFault` | kernel/src/idt.rs:233-246 | The allocation, zeroing and mapping of one demand page |
| `UserMemory.AddressSpaces.ZeroedFrame` | kernel/src/idt.rs:233-238 | The lowest free frame leaves the pool and is zeroed; no address space changes |
| `UserMemory.MappedPageGrants` | kernel/src/idt.rs:240-245 | Every page of a process grants it reading, writing and execution, so the processor raises no user fault on a mapped page |
| `UserMemory.AddressSpaces.Sbrk` | kernel/src/syscall.rs:176-204 | For a positive increment the break moves by it and exactly the pages from the old break up to the new one are added to what is covered; otherwise nothing changes; no frame changes hands |
| `UserMemory.AddressSpaces.Mmap` | kernel/src/syscall.rs:205-228 | The answer is the lowest place that fits, clear of all areas; after the call exactly the old addresses and those from the answer up to the size, rounded up to pages, are covered, and the old areas stay; on failure none fits and nothing changes |
| `UserMemory.SnocCovers` | kernel/src/syscall.rs:188-193 | An appended area adds exactly its addresses, and may be written and not executed |
| `UserMemory.PagesInRange` | kernel/src/syscall.rs:235-239 | The pages of a range are those that start in it |
| `UserMemory.WithoutAreaMembers` | kernel/src/syscall.rs:234 | Exactly the areas with these bounds are gone |
| `UserMemory.WithoutAreaSplits` | kernel/src/syscall.rs:234 | The areas that stay keep their order |
| `UserMemory.AddressSpaces.Munmap` | kernel/src/syscall.rs:229-245 | The area with exactly these bounds is dropped, exactly the pages of the range are unmapped, and no frame returns to the pool |
| `UserMemory.AddressSpaces.MunmapRange` | kernel/src/syscall.rs:229-245 | The same on whole pages |
| `UserMemory.AddressSpaces.UnmapRange` | kernel/src/syscall.rs:235-239 | The page loop removes exactly the pages of the range |
| `UserMemory.AddressSpaces.ExitProcess` | kernel/src/process.rs:407-450 | The table changes as the exit specification says, and the freed frames are exactly the frames mapped in the process's areas, once each, although areas may overlap; no page table is freed |
| `UserMemory.AddressSpaces.ReclaimAreas` | kernel/src/process.rs:426-435 | The frames of all areas join the free set |
| `UserMemory.AddressSpaces.ReclaimArea` | kernel/src/process.rs:427-434 | The page loop frees exactly the distinct frames mapped in one area |
| `UserMemory.ReclaimStep` | kernel/src/process.rs:428-434 | One round frees the frame of its page, if the page is mapped |
| `UserMemory.AllFramesFreed` | kernel/src/process.rs:425-436 | A space whose pages all lie in areas gives back the frame of every page |
| `UserMemory.ExitEnds` | kernel/src/process.rs:407-450 | Used frames drop by the size of the freed set and no other live process uses a freed frame |
| `Processes.ProcessTable.constructor` | kernel/src/process.rs:205-211 | An empty table |
| `Processes.ProcessTable.GetProcess` | kernel/src/process.rs:191-202 | The first slot with this pid |
| `Processes.ProcessTable.NextReady` | kernel/src/process.rs:381-404 | The first Ready slot in cyclic order after the current process, or nothing exactly when no slot is Ready |
| `Processes.ProcessTable.SetState` | kernel/src/process.rs:191-202 | One state field of one slot |
| `Processes.ProcessTable.UnblockPid` | kernel/src/scheduler.rs:115-121 | A blocked process with this pid becomes Ready |
| `Processes.ProcessTable.WakeWaitersOf` | kernel/src/process.rs:411-421 | Every process blocked on this pid becomes Ready, and the answer says whether there was one |
| `Processes.ProcessTable.Install` | kernel/src/process.rs:368-375 | The process takes the first free or Empty slot, or fails when there is none |
| `Ipc.MessageQueue.constructor` | kernel/src/ipc.rs:51-59 | An empty ring |
| `Ipc.MessageQueue.Push` | kernel/src/ipc.rs:61-80 | A move from the sender of a queued last move replaces it, anything else is appended, and a full ring refuses |
| `Ipc.MessageQueue.ReplaceLast` | kernel/src/ipc.rs:65-69 | The newest entry is replaced, all others stay |
| `Ipc.MessageQueue.Append` | kernel/src/ipc.rs:76-79 | One entry is added at the end |
| `Ipc.MessageQueue.Pop` | kernel/src/ipc.rs:82-90 | The oldest entry leaves; nothing only when the ring is empty |
| `Ipc.QueueRuns` | kernel/src/ipc.rs:61-90 | Over every run, the messages taken followed by those queued are the accepted ones in order, less only moves replaced by the next accepted message, a move of the same sender; no two adjacent queued entries are moves of one sender |
| `Ipc.RefusedIffFull` | kernel/src/ipc.rs:61-80 | After any run, a message is refused if and only if 64 messages are queued and it is no move right after a move of the same sender |
| `Ipc.DrainedQueueDelivers` | kernel/src/ipc.rs:82-90 | A receiver that takes until nothing is left has every accepted message but the replaced moves, in order |
| `Ipc.PlainMessagesAreFifo` | kernel/src/ipc.rs:61-90 | Messages other than moves leave in the order of acceptance, and none is lost |
| `System.BootOk` | kernel/src/scheduler.rs:19-22 | The state at boot satisfies the invariant |
| `System.ScheduleOk` | kernel/src/scheduler.rs:25-94 | Scheduling keeps the invariant: distinct pids, at most one running process, blocked receivers with empty queues |
| `System.SentOk` | kernel/src/ipc.rs:100-124 | Sending keeps the invariant: whoever gets a message is no longer blocked in receive |
| `System.ReceiveOk` | kernel/src/syscall.rs:85-110 | Receiving keeps it: a process blocks only on an empty queue |
| `System.WaitPidOk` | kernel/src/syscall.rs:312-333 | Waiting keeps it |
| `System.ExitOk` | kernel/src/process.rs:407-450 | Exit keeps it |
| `System.SpawnOk` | kernel/src/process.rs:205-378 | Spawning keeps it |
| `System.StepOk` | kernel/src/syscall.rs:65-333 | Every interrupt and system call keeps the invariant |
| `System.RunOk` | kernel/src/syscall.rs:65-333 | The invariant holds in every state of every run |
| `System.NoWakeupIsLost` | kernel/src/syscall.rs:85-110 | In every reachable state a process with pid below 64 that is Blocked in receive has an empty queue, whatever interrupts and processes send in between |
| `System.RunningIsCurrent` | kernel/src/scheduler.rs:25-94 | In every reachable state between steps, a process is Running if and only if it is the current one; none runs when the current pid is 0 |
| `Calls.SchedulePicked` | kernel/src/scheduler.rs:25-94 | The scheduler runs the first Ready slot after that of the current process, counting round the table, and changes nothing else; with none Ready the kernel idles |
| `Calls.TickRotates` | kernel/src/scheduler.rs:25-42 | A tick or SYS_YIELD leaves the process Ready with its frame saved, behind every other Ready process |
| `Calls.TickFromIdle` | kernel/src/scheduler.rs:45-58 | A tick while the kernel idles starts the first Ready process, if there is one |
| `Calls.ReceiveBlocks` | kernel/src/syscall.rs:105-109 | SYS_RECV on an empty queue, unless it polls, blocks the process: its saved frame issues the same call again, the queues stay, and the first Ready process after it runs |
| `Calls.WaitBlocks` | kernel/src/syscall.rs:321-328 | SYS_WAITPID for a process that has not ended blocks the caller in the same way, waiting for that pid |
| `Calls.ReceiveAnswers` | kernel/src/syscall.rs:90-101 | SYS_RECV takes the oldest message and answers its sender, and changes nothing else |
| `Calls.WaitAnswers` | kernel/src/syscall.rs:315-320 | SYS_WAITPID for a Dead process answers its code and makes its slot Empty, and changes nothing else |
| `Calls.CallFails` | kernel/src/syscall.rs:102-104 | Polling an empty queue, waiting for a pid that no slot has, and unknown calls answer 2^64 - 1 and change nothing else |
| `Calls.MemoryAnswers` | kernel/src/syscall.rs:176-245 | A memory call changes the areas, the break and rax of its caller only |
| `Calls.SendDelivers` | kernel/src/syscall.rs:78-85 | SYS_SEND: the receiver, kind and five words are the arguments in order, the sender is the caller; the message becomes the newest of the receiver, which wakes, and the answer is 0, or 1 when the pid is not from 1 to 63 or 64 messages are queued |
| `Calls.IrqDelivers` | kernel/src/idt.rs:282-298 | The data word of an interrupt is the first word of the message that its driver process receives |
| `Calls.EndLeaves` | kernel/src/process.rs:407-450 | A process that ends keeps its code and loses its areas, Dead if some process waits for it and Empty if not; exactly the waiting ones wake, and the first Ready process after it runs |
| `Calls.InstalledEnrolls` | kernel/src/process.rs:368-375 | The first free or Empty slot gets the new process: Ready, at the entry point, all other registers zero, with the address space, areas and heap of the load; with no such slot nothing changes |
| `Calls.SpawnStarts` | kernel/src/process.rs:310-375 | A spawn that loads a program puts that record into the first free slot with the next pid, which the caller gets in rax, or 2^64 - 1 when the table is full |
| `Calls.FirstSpawnStarts` | kernel/src/process.rs:310-375 | The same for the program that the kernel itself loads |
| `Calls.SpawnFails` | kernel/src/process.rs:205-213 | A load that fails answers 2^64 - 1, leaves no process, and spends a pid unless the file is rejected |
| `Progress.ScheduleAdvances` | kernel/src/scheduler.rs:25-94 | Each scheduler call dispatches a waiting process or brings its turn strictly closer |
| `Progress.StepAdvances` | kernel/src/syscall.rs:65-333 | In every step a Ready process keeps its place, moves closer or is dispatched, with pid and context untouched |
| `Progress.DispatchedWithin64` | kernel/src/scheduler.rs:25-94 | A process that is Ready is dispatched by the time the scheduler has been called 64 times |
| `Progress.ScheduleRevivesNobody` | kernel/src/scheduler.rs:25-94 | Scheduling changes no Dead, Blocked or Empty process |
| `Progress.StepEvolves` | kernel/src/process.rs:368-373 | No step changes a Dead or Empty slot except the wait that reaps it and the installation of a process with a new pid |
| `Progress.ExitHandsOff` | kernel/src/process.rs:411-446 | When a process exits while another is blocked waiting for it, it becomes Dead with its code, and the waiter is Ready or running with its call intact |
| `Progress.KillHandsOff` | kernel/src/idt.rs:261-266 | The same when a fault that is not served kills the process, with code 2^64-1 |
| `Progress.DeadStays` | kernel/src/process.rs:368-373 | A Dead process keeps its slot and code in every step but the wait for it |
| `Progress.WaitReaps` | kernel/src/syscall.rs:315-320 | The wait returns the code to its caller, which keeps the processor, and the pid is gone |
| `Progress.GoneStays` | kernel/src/process.rs:209-211 | A pid that is gone never comes back |
| `Progress.CodeIsHandedOffOnce` | kernel/src/syscall.rs:312-333 | Over every run, the process stays Dead until the first wait for it, that wait returns exactly its code, and no later wait finds it |
| `Restart.RestartRepeatsCall` | kernel/src/syscall.rs:105-109 | The frame that a blocked call saves makes the process issue exactly that call again |
| `Restart.BlockedIsKept` | kernel/src/scheduler.rs:104-121 | No step ends a blocked process or touches its frame |
| `Restart.WaitingParentGetsCode` | kernel/src/syscall.rs:312-333 | A process blocked in a wait for one that ends runs again within 64 scheduler calls, and at whatever later step it restarts its call, after any ticks and interrupts, the call returns the code unless another wait came first |
| `Restart.CodeKeptIff` | kernel/src/process.rs:411-446 | An exit code is kept for a later wait if and only if some process is Blocked in a wait when the process ends; otherwise no process with this pid is left |
| `Restart.MessageEndsWait` | kernel/src/scheduler.rs:115-121 | A message to a parent that waits for a child makes it Ready, so that it no longer waits |
| `Restart.MessageLosesCode` | kernel/src/process.rs:439-443 | If an interrupt sends to the only waiter and the child ends before that process restarts its wait, the code is gone for the rest of the run |
| `Restart.WaitForGone` | kernel/src/syscall.rs:312-333 | A wait for a process whose code is gone returns the error value or blocks, and never returns the code |
| `Restart.OnlyReceivePops` | kernel/src/ipc.rs:100-135 | No step but a receive of its own takes a message from the queue of a process |
| `Restart.MessageWakes` | kernel/src/ipc.rs:117-122 | A step that fills the queue of a blocked receiver makes it Ready, its call intact |
| `Restart.WokenReceiverGetsMessage` | kernel/src/syscall.rs:85-110 | A blocked receiver that is sent a message runs again within 64 scheduler calls, and its first receive after that, at whatever step and after any ticks and interrupts, takes that message, or the later move that replaced it |
| `Kernels.IpcQueues.constructor` | kernel/src/ipc.rs:94-97 | 64 distinct empty rings |
| `Kernels.IpcQueues.Offer` | kernel/src/ipc.rs:117 | Pushing into one queue leaves the others alone |
| `Kernels.IpcQueues.TakeFrom` | kernel/src/ipc.rs:127-135 | Popping from one queue leaves the others alone |
| `Kernels.Cpu.constructor` | kernel/src/scheduler.rs:15-18 | No current process at boot |
| `Kernels.Cpu.Schedule` | kernel/src/scheduler.rs:25-94 | The saved state changes as the specification's scheduling step, and a dispatched process runs in its own address space |
| `Kernels.Cpu.YieldCurrent` | kernel/src/scheduler.rs:31-37 | A running current process becomes Ready |
| `Kernels.Cpu.Dispatch` | kernel/src/scheduler.rs:56-75 | The chosen process runs, with CR3 on its own tables |
| `Kernels.Cpu.SaveContext` | kernel/src/scheduler.rs:33 | Only the frame of the current process changes |
| `Kernels.Cpu.Return` | kernel/src/syscall.rs:82-84 | Only the return register of the current process changes |
| `Kernels.Cpu.Block` | kernel/src/scheduler.rs:104-112 | The current process blocks and will restart its call |
| `Kernels.Cpu.Wake` | kernel/src/ipc.rs:119-122 | The receiver of an accepted message is unblocked |
| `Kernels.Cpu.Tick` | kernel/src/idt.rs:273-276 | The timer interrupt is the Tick step |
| `Kernels.Cpu.ExitCurrent` | kernel/src/syscall.rs:111-114 | SYS_EXIT is the exit step; exactly the frames of the pages of the process are free again, no process still live uses one, and its page tables are dead |
| `Kernels.Cpu.WaitForMessage` | kernel/src/syscall.rs:105-109 | A receive on an empty queue blocks the process with a frame that issues the call again, keeps the queues, and runs the first Ready process after it |
| `Kernels.Cpu.OtherCall` | kernel/src/syscall.rs:111-117 | Exit, yield, wait and unknown numbers are the specified steps, and only exit moves frames |
| `Kernels.Cpu.WaitPid` | kernel/src/syscall.rs:312-333 | SYS_WAITPID is the specified step, and a reaped slot is Empty |
| `Kernels.Cpu.Fault` | kernel/src/idt.rs:225-267 | A user page fault is served exactly when an area covers the address and a frame is free: the page gets the lowest free frame, zeroed, and nothing else changes; otherwise the process is killed and its frames are free again |
| `Kernels.Cpu.FaultSaved` | kernel/src/idt.rs:226-266 | The same once the frame is saved |
| `Kernels.Cpu.Sbrk` | kernel/src/syscall.rs:176-204 | SYS_SBRK is the memory step that answers the old break; for a positive increment it moves the break by it and adds exactly the pages past the old one |
| `Kernels.Cpu.SbrkSaved` | kernel/src/syscall.rs:179-199 | The same once the frame is saved |
| `Kernels.Cpu.Mmap` | kernel/src/syscall.rs:205-228 | SYS_MMAP is the memory step that answers the lowest place that fits, or the error value when none fits; the caller then has its old areas and one that covers exactly the addresses from the answer up to the size, rounded up to pages |
| `Kernels.Cpu.MmapSaved` | kernel/src/syscall.rs:208-223 | The same once the frame is saved |
| `Kernels.Cpu.Munmap` | kernel/src/syscall.rs:229-245 | SYS_MUNMAP is the memory step that drops the area with exactly these bounds; exactly the pages of the range leave the address space, and no frame goes back |
| `Kernels.Cpu.Spawn` | kernel/src/syscall.rs:284-311 | SYS_SPAWN is the spawn step with the outcome of the loader: rejected exactly without a valid header, and otherwise the record and the finished memory that the file describes, with the frames lost and the page tables left without a process; the new process waits in the first free slot at the e_entry of the file, and its pid, or 2^64 - 1 when the table is full, is in rax of the caller |
| `Kernels.Cpu.SpawnSaved` | kernel/src/syscall.rs:290-309 | The same once the frame is saved |
| `UserMemory.PlaceRegion` | kernel/src/syscall.rs:209-222 | The lowest region that fits, although the size is rounded up twice; clear of every existing region |
| `Loader.ElfLoader.ProvidePage` | kernel/src/process.rs:248-264 | The page is mapped and holds the image so far, and no other page has its frame |
| `Loader.CopiedByte` | kernel/src/process.rs:267-280 | The copy puts a segment's byte where the segment supplies one and keeps the rest of the page |
| `Progress.WaitStep` | kernel/src/syscall.rs:315-320 | The wait for a Dead process frees its slot and returns its code |
| `Kernels.Kernel.constructor` | kernel/src/scheduler.rs:15-18 | The kernel at boot is the boot state of the system |
| `Kernels.Kernel.Send` | kernel/src/ipc.rs:100-124 | Sending is the specified step |
| `Kernels.Kernel.Irq` | kernel/src/idt.rs:277-300 | The keyboard and mouse interrupts send to their driver process in the name of the interrupted one |
| `Kernels.Kernel.Receive` | kernel/src/syscall.rs:85-110 | SYS_RECV is the specified step and delivers the oldest message; with none, and unless it polls, the caller is blocked with its call intact and the first Ready process after it runs |
| `Kernels.HandedIsTaken` | kernel/src/syscall.rs:90-100 | What SYS_RECV hands to the user is exactly what leaves the queue of the caller; no other call hands a message |
| `Kernels.AsSigned` | kernel/src/syscall.rs:177 | The signed value with the same 64 bits |
| `Kernels.Kernel.Take` | kernel/src/ipc.rs:127-135 | The oldest message of the current process leaves its queue |
| `Kernels.Kernel.Answer` | kernel/src/syscall.rs:90-109 | The sender is returned, an empty queue reported, or the call blocked |
| `Kernels.Kernel.SystemCall` | kernel/src/syscall.rs:65-117 | A system call is the specified step of the whole system, delivers the oldest message in receive, and moves frames only in exit |
| `Kernels.Kernel.Handle` | kernel/src/syscall.rs:76-117 | The same once the frame is saved |
| `Kernels.Kernel.Other` | kernel/src/syscall.rs:111-117 | The same for the calls that use no queue |
| `FatTable.SetThenGet` | make_fat.py:78-84 | Storing a 12-bit entry changes that entry and no other, although neighbours share a byte |
| `FatTable.EntryIsThreeNibbles` | make_fat.py:76-94 | The entries are packed without gaps: entry n is the three half bytes from the 3n-th on |
| `FatTable.StoreNext` | make_fat.py:77-84 | The nibble writes store exactly one entry, in place |
| `FatTable.StoreEnd` | make_fat.py:87-94 | The end mark is stored as exactly one entry, in place |
| `FatNames.UpperFolds` | make_fat.py:64 | Folding turns lower-case ASCII letters into upper case and changes no other byte |
| `FatNames.SameNameIff` | kernel/src/fat32.rs:283 | Two names are folded to the same name if and only if they differ at most in ASCII case |
| `FatNames.PackedBytes` | make_fat.py:64-66 | A packed name byte by byte: the first eight bytes before the first dot and the first three between it and the next, in upper case, and spaces where these are shorter |
| `FatNames.TrimmedMiddle` | kernel/src/fat32.rs:590-591 | Trimming cuts exactly the white space at both ends |
| `FatNames.DisplayOfPacked` | kernel/src/fat32.rs:588-599 | The name shown for a packed name: its first two parts, cut to 8 and 3 bytes and trimmed |
| `FatNames.NameSurvives` | make_fat.py:64-66 | A file is shown under its own upper-case name if and only if that is an 8.3 name without white space at the end of either part |
| `FatNames.ShownIsShort` | kernel/src/fat32.rs:588-599 | Whatever the packed name was, the name shown is an 8.3 name |
| `FatLayout.StartsGrow` | make_fat.py:68-72 | Files follow each other without overlap |
| `FatLayout.EntryInFile` | make_fat.py:74-94 | The table entries of a file link its consecutive clusters |
| `FatLayout.EntryPastFiles` | make_fat.py:38-41 | Entries past the last file are free |
| `FatLayout.ChainOfFile` | make_fat.py:68-96 | Decoding from a file's first cluster gives exactly its consecutive clusters, the last one marked as the end |
| `FatLayout.ChainsDisjoint` | make_fat.py:68-96 | Chains of different files share no cluster |
| `FatLayout.DataInFile` | make_fat.py:105-107 | The data area holds each file's bytes at its clusters |
| `FatLayout.DataPastFiles` | make_fat.py:51-53 | The data area past the last file is zero |
| `FatImage.Overwrite` | make_fat.py:99-102 | A slice assignment changes exactly its bytes |
| `FatImage.FillChain` | make_fat.py:74-96 | One chain is written and every other entry keeps its value |
| `FatImage.WriteRecord` | make_fat.py:98-102 | The record of a file fills exactly its slot |
| `FatImage.AddFile` | make_fat.py:63-107 | One round keeps table, directory and data area those of the files so far |
| `FatImage.EmptyAreas` | make_fat.py:38-53 | The areas of an image without files |
| `FatImage.CreateFat12Floppy` | make_fat.py:5-119 | The image is, area by area, the one that the layout prescribes for the files, each recorded under its packed upper-case name |
| `FatRoundTrip.FloppyFormat` | make_fat.py:5-45 | A built image is a 1.44 MB floppy: parameter block, sector counts, media bytes, two equal tables and boot signature |
| `FatVolume.VolumeLayout` | kernel/src/fat32.rs:567-579 | On any volume the directory follows the reserved sectors and the tables, takes the fewest sectors that hold its entries, and the clusters follow it from number 2 |
| `FatVolume.SkippedIff` | kernel/src/fat32.rs:584 | Exactly deleted entries, volume labels and directories are skipped |
| `FatVolume.LookupIsFirst` | kernel/src/fat32.rs:581-614 | Reading a name from any volume gives the bytes of the first entry that shows it, up to the first unused slot, and nothing if and only if there is none |
| `FatVolume.ScanStep` | kernel/src/fat32.rs:581-614 | One round of the directory scan |
| `FatVolume.ReadVolume` | kernel/src/fat32.rs:564-615 | The scan returns the bytes of the first listed entry that shows the name and has a data cluster |
| `FatRoundTrip.Geometry` | kernel/src/fat32.rs:566-579 | From a built boot sector the reader computes the builder's layout |
| `FatRoundTrip.RecordParsed` | kernel/src/fat32.rs:602-603 | A record is parsed to the fields that were written |
| `FatRoundTrip.LiveOfImage` | kernel/src/fat32.rs:581-599 | The reader lists exactly the builder's files, in order |
| `FatRoundTrip.ListingOfImage` | kernel/src/fat32.rs:403-438 | The same from the first slot on, past the volume label |
| `FatRoundTrip.BytesOfFile` | kernel/src/fat32.rs:605-611 | The reader's offset of a file is where the builder put its bytes |
| `FatRoundTrip.RoundTrip` | kernel/src/fat32.rs:564-615 | For every list of files that fits and every name, reading the built image gives the exact bytes of the first file shown under that name, or nothing; empty files included |
| `FatRoundTrip.MissingIffNotShown` | kernel/src/fat32.rs:581-614 | A name is missing if and only if no packed name is shown as it |
| `FatRoundTrip.LongNameIsMissing` | make_fat.py:64-66 | In every image, a name that is not an 8.3 name is found nowhere |
| `FatRoundTrip.EveryFileReadsBackIff` | kernel/src/fat32.rs:564-615 | All files of an image are read back under their own names if and only if all names are 8.3 names and files whose upper-case names agree have equal contents |
| `FileStores.ViewIsRead` | kernel/src/fat32.rs:547-616 | The map holds a file exactly when reading its name finds one |
| `FileStores.WriteIsUpdate` | kernel/src/fat32.rs:282-294 | Writing is map update |
| `FileStores.RemoveIsRemoval` | kernel/src/fat32.rs:300-316 | Deleting is map removal |
| `FileStores.OverlayLists` | kernel/src/fat32.rs:448-458 | Merging the written files keeps the listing exact |
| `FileStores.ImageLists` | kernel/src/fat32.rs:402-438 | The image part of a listing is exact for a well-named image |
| `FileStores.BuiltImageIsWellNamed` | make_fat.py:59-107 | A built image is well named if and only if its files are shown under distinct names |
| `FileStores.BootContents` | kernel/src/fat32.rs:547-616 | At boot the map holds exactly the packed files |
| `FileStores.ListVolume` | kernel/src/fat32.rs:415-438 | The directory scan lists the live entries that were not deleted |
| `FileStores.FileStore.constructor` | kernel/src/fat32.rs:15-23 | Nothing written and nothing deleted at boot |
| `FileStores.FileStore.WriteFile` | kernel/src/fat32.rs:282-294 | The map is updated at the upper-case name and nowhere else: afterwards every name that differs at most in ASCII case reads as the data, and every other name as before |
| `FileStores.FileStore.ReadFile` | kernel/src/fat32.rs:547-616 | Lookup in the map, with the same result for every name that differs at most in ASCII case |
| `FileStores.FileStore.DeleteFile` | kernel/src/fat32.rs:300-316 | Removal from the map: every name that differs at most in ASCII case is gone, and every other name stays; the answer says whether the file existed |
| `FileStores.FileStore.ListFiles` | kernel/src/fat32.rs:398-461 | For a well-named image, each file of the map is listed once with its length modulo 2^32, and nothing else is |
| `FileDescriptors.OffsetsStayInside` | kernel/src/vfs.rs:51-128 | In every run no descriptor's offset passes its data |
| `FileDescriptors.WritesAccumulate` | kernel/src/vfs.rs:93-113 | A writable descriptor holds all that was written through it, in order, whatever else happens |
| `FileDescriptors.ReadsDeliver` | kernel/src/vfs.rs:75-90 | A descriptor opened for reading delivers its snapshot from its offset on, whatever others do to the store and the table |
| `FileDescriptors.SparedFileStays` | kernel/src/fat32.rs:282-294 | A file that no step stores or removes keeps its contents |
| `FileDescriptors.WriteThenRead` | kernel/src/vfs.rs:51-128 | Open for writing, write, close, open for reading, read: the reads deliver a prefix of the writes, and all of them exactly when a further read gives nothing |
| `FileDescriptors.OpenAnswers` | kernel/src/vfs.rs:51-72 | Opening fails exactly when the descriptors from 3 on are in use or the file to be read does not exist; otherwise the lowest free one has the file, or nothing yet, at offset 0 |
| `FileDescriptors.ReadAnswers` | kernel/src/vfs.rs:75-90 | A read delivers as many bytes as asked for, or all that are left, from the offset on |
| `FileDescriptors.WriteAnswers` | kernel/src/vfs.rs:93-113 | A write takes as many bytes as asked for, or the whole buffer, and appends them; without a writable descriptor it takes none |
| `FileDescriptors.CloseAnswers` | kernel/src/vfs.rs:116-128 | Closing frees the descriptor, and stores what was opened for writing under every name that differs at most in ASCII case; no other file changes |
| `FileDescriptors.FdTable.constructor` | kernel/src/vfs.rs:29-38 | Sixteen free descriptors |
| `FileDescriptors.FdTable.AllocFd` | kernel/src/vfs.rs:41-48 | The least free descriptor from 3 on |
| `FileDescriptors.FdTable.Open` | kernel/src/vfs.rs:51-72 | A fresh buffer for writing, a snapshot for reading, or nothing |
| `FileDescriptors.FdTable.Read` | kernel/src/vfs.rs:75-90 | The bytes at the offset go to the front of the buffer, the rest of the buffer stays, and the offset moves past them |
| `FileDescriptors.FdTable.Write` | kernel/src/vfs.rs:93-113 | The bytes go to the offset, growing the data, and the count is returned |
| `FileDescriptors.FdTable.Close` | kernel/src/vfs.rs:116-128 | The descriptor is freed and written data goes to the store |
| `FileDescriptors.FdTable.Stat` | kernel/src/vfs.rs:131-140 | The length, or the error value for no open file |
| `SharedMemory.RegionAdded` | kernel/src/shm.rs:57-73 | A new region over frames of its own keeps all regions disjoint and ids unique |
| `SharedMemory.RegionRemoved` | kernel/src/shm.rs:113-116 | Removing a region and its frames keeps the others |
| `SharedMemory.FramesCounted` | kernel/src/shm.rs:36-50 | A region owns as many frames as it lists |
| `SharedMemory.OthersUntouched` | kernel/src/shm.rs:125-143 | The cleanup leaves the regions of other owners untouched and in order |
| `SharedMemory.FreedIffRemoved` | kernel/src/shm.rs:134-140 | A frame is freed if and only if a removed region owned it |
| `SharedMemory.CleanStep` | kernel/src/shm.rs:128-142 | One turn of removal while iterating |
| `SharedMemory.CleanedMembers` | kernel/src/shm.rs:125-143 | After an exit the regions of others are left, and the own ones that were mapped at least twice, with one mapping less and marked |
| `SharedMemory.MapCountsIff` | kernel/src/shm.rs:79-97 | Mapping a region keeps its counter exact if and only if the address space did not map it before |
| `SharedMemory.UnmapCounts` | kernel/src/shm.rs:108-117 | Unmapping a region that stays keeps its counter exact |
| `SharedMemory.ExitCountsIff` | kernel/src/shm.rs:125-143 | The exit of the owner keeps the counter of a region that stays exact if and only if the owner mapped it |
| `SharedMemory.PageMapAt` | kernel/src/shm.rs:83-91 | The k-th page of a mapping leads to the k-th frame of the region |
| `SharedMemory.ExitFreesMappedIff` | kernel/src/shm.rs:125-143 | With counters that count the mappings, the exit of an owner frees a region that another process maps if and only if the owner does not map it and exactly one process does |
| `SharedMemory.UnmapFreesMappedIff` | kernel/src/shm.rs:108-117 | With counters that count the mappings, an unmap frees a region that another process maps if and only if the owner has exited and exactly two processes mapped it |
| `SharedMemory.CleanupFreesMappedIff` | kernel/src/shm.rs:125-143 | The cleanup frees a mapped frame if and only if it removes a mapped region: one of the process, with a counter of at most one |
| `SharedMemory.LentRegionIsFreed` | kernel/src/shm.rs:125-143 | A region that only another process maps is freed at the exit of its owner |
| `SharedMemory.ShmTable.constructor` | kernel/src/shm.rs:25-27 | No region, ids from 1 |
| `SharedMemory.ShmTable.FreeAll` | kernel/src/shm.rs:45-47 | Exactly these frames join the free set |
| `SharedMemory.ShmTable.TakeFrames` | kernel/src/shm.rs:36-50 | All the frames, zeroed, or none and the free set restored |
| `SharedMemory.ShmTable.TakeFrame` | kernel/src/shm.rs:37-43 | One more frame, the lowest free one, zeroed; none exactly when none is free |
| `SharedMemory.ShmTable.Create` | kernel/src/shm.rs:32-76 | All or nothing: success exactly when the frames suffice and the table has room; every failure restores the free set and the table, and a full table still spends an id |
| `SharedMemory.ShmTable.Enter` | kernel/src/shm.rs:52-75 | The region gets the next id and enters the table, or its frames go back |
| `SharedMemory.ShmTable.Map` | kernel/src/shm.rs:79-97 | The region's pages are mapped in one address space and no other space changes |
| `SharedMemory.ShmTable.MapRegion` | kernel/src/shm.rs:81-93 | The same for a region that was found |
| `SharedMemory.ShmTable.MapAll` | kernel/src/shm.rs:83-91 | The loop maps consecutive pages to the region's frames |
| `SharedMemory.ShmTable.MapOne` | kernel/src/shm.rs:85-90 | One page of one address space |
| `SharedMemory.ShmTable.Unmap` | kernel/src/shm.rs:100-122 | The region's pages leave the active space, and its frames are freed exactly when its owner has exited and at most one mapping is counted |
| `SharedMemory.ShmTable.UnmapAll` | kernel/src/shm.rs:104-107 | The loop removes exactly the region's pages |
| `SharedMemory.ShmTable.DropMapping` | kernel/src/shm.rs:108-117 | One mapping less, or the region removed |
| `SharedMemory.ShmTable.Remove` | kernel/src/shm.rs:113-116 | The region leaves the table and its frames join the free set |
| `SharedMemory.ShmTable.CleanupProcess` | kernel/src/shm.rs:125-143 | The table becomes the cleaned one and exactly the removed regions' frames are freed |
| `SharedMemory.ShmTable.CleanOne` | kernel/src/shm.rs:129-142 | What one turn does with the region at hand |

## Left out

- Hardware drivers, port and MMIO access, and inline assembly: device input and output. CR3 is a field; TLB flushes and PAT are dropped.
- GPT writing and ACPI parsing: fixed layouts and a bounded walk, easy members only.
- The physical-disk file path: it writes every file from cluster 100, so no multi-file property holds there.
- Copies to and from user memory: the helpers add the page offset a second time (kernel/src/syscall.rs:580-594), so message delivery is a value here.
- Eventual return of every waitpid: a child that exits with no blocked waiter is Empty at once, and a later wait for it blocks (`Restart.WaitForGone`). Only the hand-off is claimed.
- Shared-memory counters as exact counts of mappings over runs: mapping a region twice into one space counts twice, and the exit of an owner that does not map it counts one too few (`SharedMemory.MapCountsIff`, `SharedMemory.ExitCountsIff`), so `SharedMemory.Counted` is a hypothesis.
- Shared and physical mappings of live processes: exit frees whatever is mapped in a region, so the process invariant (`Ownership.OwnsSpace`) wants every mapped page in a region, with a frame of its own. A successful `SharedMemory.ShmTable.Map` of a non-empty region into a live process leaves that invariant, so the two are modelled side by side over the same machine and not in one run.
- The call of the shared-memory cleanup from exit_process, for the same reason.
- SYS_EXECVE, SYS_SHUTDOWN and the calls that only report: they are memory steps that return at once, or not modelled.
- Kernel threads of `spawn` with a null PML4, kernel stacks, titles, and the descriptor table inside the process record.
- The switch of CR3 when the idle loop has no process to return to.
- Wrap-around of the 32-bit counter of shared-memory ids, which is a precondition of `Create`, and of pids.
- Names outside ASCII, and images whose files do not fit: the builder then fails or grows the image.
- Paging.Machine.UnmapPage: user-half addresses only, because a kernel-half entry belongs to every address space at once.
- UserMemory.AddressSpaces.Sbrk: breaks that stay in the user half, because a region past it would map pages into the shared kernel tables.
- UserMemory.AddressSpaces.Mmap: sizes and hints whose 64-bit sums do not wrap around, because the search is specified by plain sums.
- UserMemory.AddressSpaces.Munmap: ranges inside the user half, for the reason of UnmapPage.
- UserMemory.AddressSpaces.MunmapRange: ranges inside the user half, for the reason of UnmapPage.
- UserMemory.AddressSpaces.UnmapRange: ranges inside the user half, for the reason of UnmapPage.
- Kernels.Cpu.Sbrk: breaks that stay in the user half, as in the method it calls.
- Kernels.Cpu.SbrkSaved: breaks that stay in the user half, as in the method it calls.
- Kernels.Cpu.Mmap: sizes and hints that do not wrap around, as in the method it calls.
- Kernels.Cpu.MmapSaved: sizes and hints that do not wrap around, as in the method it calls.
- Kernels.Cpu.Munmap: ranges inside the user half, as in the method it calls.
- FileStores.FileStore.ListFiles: exactness is promised for images with distinct upper-case names, which built images have if and only if `FileStores.BuiltImageIsWellNamed` says so.

# PRoot: what its core keeps

PRoot runs programs under another root directory, with bindings that graft host paths into it, without any privilege: it
traces them with ptrace(2), rewrites what their system calls ask for, and answers some of them itself.  This project
models the core of PRoot, and of the talloc allocator it is built on, in Dafny 4.11, and proves what it keeps.
`dafny verify dfyconfig.toml` checks all of it.

The model has the form of the source: what the source changes in place is a class whose methods change its fields, its
loops are loops, and each method is proved against a function of the old state; the theorems are about those functions,
over all inputs, runs or reachable states.

- `Basics` (words and pages), `Paths` (paths as texts and as components: comparing, joining, substituting prefixes,
  reading components).
- `Bindings`, `Translation`: the two lists of bindings, sorted so that the first match is the longest one, and the
  translation of paths from the guest to the host and back.
- `Resolution`, `Canon`: pathname resolution as POSIX describes it, the walk that `canonicalize` makes through the
  bindings, and exactly where they differ.
- `PivotRoot`, `NameSpaces`: mount, umount and pivot_root, which edit the lists of bindings.
- `LoadMaps`, `Clearing`, `Loader`: ELF program headers compiled to mappings, the end of a page cleared, mappings
  compiled to a script of words, the script interpreted in the tracee, and the memory that leaves.
- `Sysnums`, `SeccompFilter`: syscall numbers, and the BPF program that chooses the syscalls to report.
- `Intercept`: the stops of a syscall, handled exactly once under both orders of events that kernels have.
- `Chain`: registers, and the syscalls that PRoot chains behind those of the tracee.
- `Brk`, `Mem`: the emulation of brk(2), and access to the memory of a tracee.
- `TallocPool`: pools.  `TallocOwners`, `TallocLaws`: ownership through parents and references, what each step does to
  it, and its laws.  `TallocLists`, `TallocArena`: the linked lists that represent it, and the operations on them.
- `PtraceWait`: ptrace(2) and wait(2) between tracees.

## Where the source differs from what it promises

The model does what the code does.  Each of these is a lemma with an input on which the promise fails, or an exact
condition.

- `chop_finality` takes the final dot of a file name for the suffix it removes (`Paths.ChopFinalityExact`).
- `canonicalize` asks of no last name whether it is a directory: it leaves a final slash of the path to the syscall that
  follows, and forgets one of the contents of a link; and it takes the null pathname for the current directory.  Its
  success is that of POSIX resolution if and only if neither matters (`Resolution.WalkedIsResolved`,
  `Resolution.FinalSlashOfLink`).
- `substitute_binding` ignores the error of `substitute_path_prefix`: a path that would become too long is left as it is
  and reported as substituted (`Translation.SubstituteExactly`, `Translation.LongPathIsNotTranslated`).
- `emulate_pivot_root` does not chop `put_old`: the previous tree is exposed if and only if it ends with a name; with a
  final separator all that is found there lacks a separator once translated, and `pivot_root(".", ".")` binds the previous
  root at "/.", where nothing is looked up (`NameSpaces.NameSpace.EmulatePivotRoot`).  `emulate_umount` is the inverse of
  `emulate_mount` only where nothing was bound (`NameSpaces.UmountUndoesMount`).
- `insort_binding` says that it uses the deepest container, but its `next` starts at the first element: a binding goes to
  the head if and only if it contains none of those in the list (`Bindings.InsertedAtHead`).
- `add_mapping` maps a page too many behind a segment whose file part ends at a page boundary, and the loader dies if it
  has to clear that page and it is past the end of the file or read-only (`LoadMaps.LoadCorrect`,
  `LoadMaps.BusErrorAtEndOfFile`).
- `clear` zeroes more than its range when that lies strictly inside one word (`Clearing.ClearsExactly`); its callers give
  it aligned ends.
- A fork event computes the restart mode anew, so that a syscall whose exit stage only that mode remembers would lose it
  (`Intercept.ForkInside`).  No filter of the source flags a syscall that forks, and none of their handlers asks for the
  exit stage (`Intercept.ForksRemember`): it takes an extension whose filter does.
- The length of a BPF program is an unsigned short (`SeccompFilter.InstalledWhole`); with two ABIs that share numbers the
  first entry wins (`SeccompFilter.FilterCorrect`); and a syscall whose number is `SYSCALL_AVOIDER` is never reported.
- `translate_sysnum` lets an index equal to the length of its table through, and the tracee chooses the number: the entry
  it reads then is whatever lies behind (`Sysnums.OnlyKnownTranslated`, `Chain.RestartedIsOriginal`).
- The error test of `translate_brk_exit` reads 32 bits, which is right for pages only (`Brk.ErrorTestExact`,
  `Brk.ErrorTestInexact`).
- The fallback of `read_string` reads one word too many when the maximum is a multiple of the word, and that of
  `write_data` needs the whole last word to be mapped: their contracts say which words have to be.
- talloc computes the owner of an abandoned chunk from its first reference before any goes.  A chunk first referenced from
  below, and then from elsewhere, is handed to its own subtree; a reference of the null context is taken for none while the
  dying chunk knows its parent.  `TallocLaws.AbandonedOwners` says exactly who loses the chunk,
  `TallocLaws.OwnerBelowLosesOther` and `TallocLaws.NullReferenceMisplaced` give inputs.  `talloc_unlink` changes nothing
  for a chunk that refers to itself first (`TallocLaws.UnlinkedParent`).
- Restarting a ptracee does not clear its pending event, and a wait(2) passes over a ptracee that runs: its ptracer may
  block in front of an event.  It does if and only if it waits so (`PtraceWait.StepQuiet`, `PtraceWait.QuietExactly`);
  `PtraceWait.EventPassedOver` is such a run, from nothing at all.
- A ptracer blocked until one ptracee has an event is not woken when that one disappears without an event while others are
  left (`PtraceWait.StepThere` says exactly when, `PtraceWait.AwaitedGone` gives a run).
- `canonicalize` refuses a link that leads back to the directory it is in, which POSIX resolves (`Resolution.LinkToDot`,
  `Canon.FollowLink`).

## Model

| member | source | states |
|---|---|---|
| `Paths.ComparePathsSound` | core/proot/src/main/cpp/path/path.c:536-587 | For any two component sequences, however their texts end (with or without a final separator), `compare_paths2` answers how the sequences are related: equal, a proper prefix one way or the other, or neither. It never takes "/foobar" to be under "/foo". |
| `Paths.CompareCanonical` | core/proot/src/main/cpp/path/path.c:536-587 | The same for the canonical paths that bindings hold. |
| `Paths.JoinAppends` | core/proot/src/main/cpp/path/path.c:51-111 | Joining a component to a canonical path, the root included, gives the canonical path with that component appended, exactly when that fits in a buffer. |
| `Paths.SubstituteReplacesPrefix` | core/proot/src/main/cpp/path/path.c:679-738 | In all three length cases exactly the leading components are replaced, and it succeeds whenever the result fits. |
| `Paths.SubstituteRoundTrip` | core/proot/src/main/cpp/path/path.c:679-738 | A substitution is undone by the one with both prefixes swapped. |
| `Paths.ChopFinalityExact` | core/proot/src/main/cpp/path/path.c:264-281 | Chopping what `canonicalize` may put after a path gives the path back if and only if there was something to chop, or the path is the root, or its last name does not end with a dot. |
| `Paths.ChopFinalityTakesNameForRoot` | core/proot/src/main/cpp/path/path.c:264-281 | A concrete path on which it is wrong: the mount point "/a." is chopped to the root. |
| `Paths.PopComponent` | core/proot/src/main/cpp/path/canon.c:44-71 | In place of a canonical path, the path of its parent; the root stays. Any absolute path stays absolute, as the source asserts. |
| `Paths.NextComponent` | core/proot/src/main/cpp/path/canon.c:87-127 | Reads the first component of what is left and moves to the others, and refuses it exactly when it has NAME_MAX characters or more; the finality says whether none are left, and whether the whole path ended with a separator. |
| `Bindings.CoversIsPrefix` | core/proot/src/main/cpp/path/binding.c:120-165 | The test of the lookup loop holds exactly when the components of the binding are a prefix of those of the path. |
| `Bindings.CompareMarks` | core/proot/src/main/cpp/path/path.c:536-587 | For any two absolute paths, canonical or not, the comparison is that of their texts with a final separator: equal, a prefix one way or the other, or neither. |
| `Bindings.FirstCoverIsDeepest` | core/proot/src/main/cpp/path/binding.c:120-165 | In a list where no element is a proper prefix of a later one, first match is longest match: every other binding that contains the path contains the one found. |
| `Bindings.LookupIsLongestPrefix` | core/proot/src/main/cpp/path/binding.c:120-165 | A guest lookup always finds the binding with the longest guest path that contains the path asked for. |
| `Bindings.ContainsIsPrefix` | core/proot/src/main/cpp/path/binding.c:326-362 | The comparisons of the insertion loop are component prefixes. |
| `Bindings.InsertedAtHead` | core/proot/src/main/cpp/path/binding.c:300-376 | The place before the deepest container is never sought: a binding goes to the head of the list if and only if it contains none of its elements, wherever those that contain it are. |
| `Bindings.InsortOrdered` | core/proot/src/main/cpp/path/binding.c:297-388 | Even with paths that are not canonical, inserting on both sides keeps both lists sorted by what contains what, without doubles, and with the same bindings. |
| `Bindings.RemoveOrdered` | core/proot/src/main/cpp/path/binding.c:277-287 | So does removing. |
| `Bindings.InsortKeeps` | core/proot/src/main/cpp/path/binding.c:297-388 | Inserting on both sides keeps the lists consistent (both sorted, guest paths distinct, the same bindings in both), keeps "/" last, and changes the bound guest paths at that one path only, replacing what was bound there. |
| `Bindings.RemoveKeeps` | core/proot/src/main/cpp/path/binding.c:277-287 | Removing a binding keeps the same invariant and unbinds that binding and nothing else; "/" stays last unless it is the one removed. |
| `Translation.SubstituteFound` | core/proot/src/main/cpp/path/binding.c:239-272 | On either side, and whether the binding is symmetric or not, the components of the binding found are replaced by those it has on the other side. |
| `Translation.SubstituteExactly` | core/proot/src/main/cpp/path/binding.c:239-272 | The error of the substitution is lost: the path is translated as its binding says if and only if there is room for it, or both sides are the same; otherwise it is left as it is and reported as translated. |
| `Translation.LongPathIsNotTranslated` | core/proot/src/main/cpp/path/binding.c:239-272 | A concrete input: with a root of 4000 characters, a guest path of 100 is returned untranslated, as if it were translated. |
| `Translation.ToHostIsRebased` | core/proot/src/main/cpp/path/binding.c:239-272 | The host path of a guest path is the host path of its deepest binding followed by the rest of the guest path, as long as it fits. |
| `Translation.HostLookupFindsBack` | core/proot/src/main/cpp/path/binding.c:120-165 | When no host path of a binding contains another, the binding found from the host side is the one the guest path was translated with. |
| `Translation.DetranslateFromRoot` | core/proot/src/main/cpp/path/path.c:402-515 | A host path under the root detranslates to what follows the root. |
| `Translation.DetranslateFromBinding` | core/proot/src/main/cpp/path/path.c:402-515 | A host path under another binding detranslates to the guest path of the binding followed by the rest. |
| `Translation.TranslationRoundTrip` | core/proot/src/main/cpp/path/path.c:402-515 | With a root other than "/" and host paths apart, detranslating the translation of any canonical guest path gives that path back. |
| `Translation.DetranslatedIsSeen` | core/proot/src/main/cpp/path/path.c:402-515 | The contents of a link detranslate to what the guest sees there, said in components: relative contents stay; what is under the root loses the root; else, for a link under /proc, or in a binding other than the root, what is under the deepest binding gets its guest side (in the second case only if that has the host path of the binding of the link, and as long as it fits); anything else stays. Contents of PATH_MAX characters are refused. |
| `Translation.SeenNames` | core/proot/src/main/cpp/path/path.c:402-515 | The same for canonical contents and links, as one sequence of components. |
| `Translation.LinkInRoot` | core/proot/src/main/cpp/path/path.c:402-515 | A link of the root file system to "/etc/x" leads to the "/etc/x" of the guest, whatever bindings have that host path. |
| `Translation.DetranslatedOnHost` | core/proot/src/main/cpp/path/path.c:402-515 | A host path that is of no link is, in the guest, what follows the root when it is under it, else what its deepest binding makes of it as long as that fits; and an error exactly when neither holds it, or with PATH_MAX characters. |
| `Translation.FirstIsDeepest` | core/proot/src/main/cpp/path/binding.c:120-165 | In a sorted list without doubles, on either side, the first element that contains a path is the one with the longest text that does. |
| `Translation.SubstituteSees` | core/proot/src/main/cpp/path/binding.c:239-272 | A substitution from the host to the guest is the move of the path from one prefix to the other, unless it does not fit. |
| `Resolution.WalkIsClean` | core/proot/src/main/cpp/path/canon.c:355-379 | What a walk yields has no "." and no "..", and none of its ancestors is a link; nor is it itself when the last link is to be followed. |
| `Resolution.WalkOrRefuse` | core/proot/src/main/cpp/path/canon.c:355-405 | POSIX resolution (section 4.13 of POSIX.1-2017, final slashes of the path and of link contents included) is the walk that `canonicalize` makes, but that it refuses a last name that a final slash asks to be a directory and that is none. |
| `Resolution.WalkedIsResolved` | core/proot/src/main/cpp/path/canon.c:355-405 | So a walk that ends somewhere is POSIX resolution if and only if the pathname is not null, and what a final slash asks to be a directory is one. |
| `Resolution.FinalSlashOfLink` | core/proot/src/main/cpp/path/canon.c:355-405 | A concrete input: "/l", a link to "f/", where "f" is a file. POSIX refuses it; the walk ends at "/f". |
| `Resolution.LinkToDot` | core/proot/src/main/cpp/path/canon.c:366-373 | A concrete input: a link "/d" to ".". POSIX resolves it with one link; it leads back to where it is, which `canonicalize` refuses. |
| `Resolution.LeadsTooFar` | core/proot/src/main/cpp/path/canon.c:358-365 | When resolution came to a link with n links, and the contents of that link need more than those that are left, the whole path needs more than there are. |
| `Resolution.LinkToNowhere` | core/proot/src/main/cpp/path/canon.c:340-380 | A link whose contents lead nowhere, or not to a directory with more behind it, leads nowhere, whatever number of links may be read. |
| `Resolution.LeadsNowhere` | core/proot/src/main/cpp/path/canon.c:240-379 | When what is left of a path leads nowhere from where it has come, the path leads nowhere. |
| `Canon.StatIsView` | core/proot/src/main/cpp/path/canon.c:136-187 | What the stat of a component says is what the guest sees there through its bindings; a non-final component is a directory or a link. |
| `Canon.ReadLinkIsView` | core/proot/src/main/cpp/path/canon.c:340-351 | What is read and detranslated is what the guest sees in the link (`Translation.Seen`), never empty, and an error exactly when the contents have PATH_MAX characters or more. |
| `Canon.Canonicalize` | core/proot/src/main/cpp/path/canon.c:199-411 | On success the buffer holds where the walk of the user path in the guest view ends, dereferencing exactly as many links as were read, then the finality of the user path at the outermost level; POSIX resolution ends there too, whatever number of links it may read beyond, if and only if the pathname is not null and a name that a final slash of the path, or of link contents, asks to be a directory is one. The result has no "." or "..", and no ancestor of it is a link. In a tree started from a directory, "does not exist" and "is no directory" are said only of paths that lead nowhere; the only other errors are ELOOP, ENAMETOOLONG, and EINVAL for two relative paths; and there ENAMETOOLONG is said only when a name, the contents of a link that is seen, or a path on the way exceeds its limit. It terminates on every file system, cyclic ones included, and a call at level r reads at most 2^(MAXSYMLINKS - r + 1) - 1 links; deeper calls fail with ELOOP. And ELOOP is never the answer when the path can be walked with MAXSYMLINKS - r links and no link of the tree leads back to the directory it is in. |
| `Canon.EnterComponent` | core/proot/src/main/cpp/path/canon.c:285-380 | One component that is neither "." nor "..": entered, or its link followed, along the walk; refused only when the whole path leads nowhere, the buffers are too short, the path needs more links than are left, or some link comes back to where it is. |
| `Canon.FollowLink` | core/proot/src/main/cpp/path/canon.c:340-380 | The dereference of one link resolves its target from where the link is, to something else than where the link is, that is no link (so the assertion at line 379 holds) and that is a directory when more components follow; ELOOP is said only when that takes more links than are left, or leads back. |
| `Canon.CheckReferee` | core/proot/src/main/cpp/path/canon.c:362-379 | After a link was followed: ELOOP only where it leads back to the directory it is in, and a refusal only when more components follow what is no directory. |
| `Canon.DerefSum` | core/proot/src/main/cpp/path/canon.c:206-363 | The s-th dereference of a call recurses s levels deeper: so many of them stay within the bound. |
| `PivotRoot.UnderIsPrefix` | core/proot/src/main/cpp/syscall/enter.c:307-337 | The character tests of the loop are component prefixes, and what is left of a path under the new root is a canonical path. |
| `PivotRoot.PutOldIsPrefix` | core/proot/src/main/cpp/syscall/enter.c:255-273 | For a put_old without final separator or dot, the previous root gets a place exactly when put_old is strictly under the new root: there, as seen from it. |
| `PivotRoot.PutOldPlaced` | core/proot/src/main/cpp/syscall/enter.c:241-273 | For every put_old as `canonicalize` leaves it, with any finality: the place is put_old seen from the new root, with the separator or the dot that ends it; and with a final dot there is one, "/.", even when put_old is the new root. |
| `PivotRoot.LookupAfterPivot` | core/proot/src/main/cpp/syscall/enter.c:292-347 | For every guest path under no old binding that stays in place and not under put_old, its host components afterwards are those that the same path under the new root had before. |
| `PivotRoot.LookupOfPreviousRoot` | core/proot/src/main/cpp/syscall/enter.c:292-347 | With nothing at or under put_old, every path that was not found strictly under the new root has, afterwards and under put_old, the host components it had before. |
| `NameSpaces.NameSpace.GetBinding` | core/proot/src/main/cpp/path/binding.c:120-165 | The loop over the list computes the lookup, with its exception for host paths under the root. |
| `NameSpaces.NameSpace.InsortBinding` | core/proot/src/main/cpp/path/binding.c:297-376 | The loop with its two insertion candidates changes the list as specified: behind the last element the binding contains, else at the head, or in place of the one bound to the same guest path (which leaves both lists). |
| `NameSpaces.NameSpace.RemoveFromAllLists` | core/proot/src/main/cpp/path/binding.c:277-287 | The binding leaves both lists. |
| `NameSpaces.NameSpace.InsortBinding3` | core/proot/src/main/cpp/path/binding.c:396-415 | A new binding, under an identity no other has, enters both lists. |
| `NameSpaces.NameSpace.EmulateMount` | core/proot/src/main/cpp/syscall/enter.c:202-207 | Keeps the name-space valid and rebinds exactly one guest path. |
| `NameSpaces.NameSpace.EmulateUmount` | core/proot/src/main/cpp/syscall/enter.c:360-383 | Keeps the name-space valid and unbinds exactly what is bound at the target itself, never the root. |
| `NameSpaces.NameSpace.EmulatePivotRoot` | core/proot/src/main/cpp/syscall/enter.c:217-350 | For a put_old that ends in any way `canonicalize` leaves it: paths that no old binding holds in place are what they were under the new root. The previous tree is reachable under put_old as it was when put_old is strictly under the new root and ends with a name; with a final separator put_old and every path under it find the previous root, whose guest path is then longer than put_old itself, and what is under it is translated without a separator, right if and only if the previous root had the very path of put_old; with a final dot, or a put_old that is not strictly under the new root ("." and "." included), nothing is exposed anywhere. In every case the bindings that are neither the root nor under the new root stay, but where another one takes their very guest path, and whatever they held they still hold, unless a moved or exposed binding lies deeper. |
| `NameSpaces.PivotKeepsNewRoot` | core/proot/src/main/cpp/syscall/enter.c:292-347 | From the state of the lists after the loop: lookups of untouched paths are preserved under the new root. |
| `NameSpaces.PivotExposesPreviousRoot` | core/proot/src/main/cpp/syscall/enter.c:292-347 | From the state of the lists after the loop: lookups of the previous tree are preserved under put_old. |
| `NameSpaces.PivotKeepsOthers` | core/proot/src/main/cpp/syscall/enter.c:328-347 | From the same state: each old binding that is neither the root nor under the new root is still there, unless a moved or exposed one has its very guest path; every path whose deepest binding it was is looked up as before, unless one of those contains that path and is deeper. |
| `NameSpaces.NothingAtDot` | core/proot/src/main/cpp/syscall/enter.c:249-273 | What is bound at a path that ends with "." is found by no lookup of a path without dots. |
| `NameSpaces.FoundWithSlash` | core/proot/src/main/cpp/syscall/enter.c:255-347 | From the state of the lists after the loop, with a final separator: put_old and every path under it find the previous root, as the other bindings exposed there have two separators in a row. |
| `NameSpaces.TranslatedWithoutSeparator` | core/proot/src/main/cpp/path/binding.c:239-272 | Such a path is translated without the separator between the host path and the rest. |
| `NameSpaces.SeparatorIsMissing` | core/proot/src/main/cpp/path/binding.c:239-272 | Which is the right host path if and only if the previous root had the very path of put_old. |
| `NameSpaces.UmountUndoesMount` | core/proot/src/main/cpp/syscall/enter.c:352-383 | umount after mount restores the bindings if and only if nothing was bound at the target, since mount replaces. |
| `Clearing.Clear` | core/proot/src/main/cpp/loader/loader.c:56-85 | The three loops zero the bytes up to the first aligned word, then whole words, then from the last aligned word, and nothing else. |
| `Clearing.ClearsExactly` | core/proot/src/main/cpp/loader/loader.c:56-85 | That is exactly [start, end) if and only if the range does not lie strictly inside one word: hence for every aligned end. |
| `LoadMaps.LoadInfo.AddMapping` | core/proot/src/main/cpp/execve/enter.c:56-124 | Appends the one or two mappings of a program header, in 64-bit arithmetic. |
| `LoadMaps.LoadInfo.AddLoadBase` | core/proot/src/main/cpp/execve/enter.c:311-324 | Shifts every mapping, and the entry point, by the base and changes nothing else. |
| `LoadMaps.LoadInfo.ComputeLoadAddress` | core/proot/src/main/cpp/execve/enter.c:332-357 | Shifts an object exactly when it is position independent and linked at 0. |
| `LoadMaps.LoadSegment` | core/proot/src/main/cpp/execve/enter.c:81-121 | Making the mappings of one segment succeeds if and only if the end of its last file page can be cleared, and leaves its file bytes and zeroes in place, with its protection and the file behind its file pages only, and what lies below its first page alone. |
| `LoadMaps.LoadCorrect` | core/proot/src/main/cpp/execve/enter.c:56-124 | Load compiler correctness, as in chapter 5 (Program Header) of the System V ABI: for ascending segments whose addresses are congruent to their offsets, and any base, making all generated mappings succeeds if and only if the end of each segment can be cleared, and then every segment holds file byte offset+i at vaddr+i for i < filesz, and 0 from there to memsz, all with its own protection. |
| `LoadMaps.MappingsAligned` | core/proot/src/main/cpp/execve/enter.c:81-121 | What mmap(2) is given is page-aligned, in memory and in the file, and never empty. |
| `LoadMaps.BusErrorAtEndOfFile` | core/proot/src/main/cpp/execve/enter.c:81-103 | A valid segment that cannot be loaded: its file part ends at a page boundary which is the end of the file, one page too many is mapped, and clearing it is a bus error. |
| `LoadMaps.ClearedIsZeroed` | core/proot/src/main/cpp/loader/loader.c:144-170 | What the loops of `clear` zero up to a word boundary is just the range they are given, and they succeed just when all of it is writable. |
| `LoadMaps.MappingsInPages` | core/proot/src/main/cpp/execve/enter.c:81-121 | The mappings of a segment stay in its pages, end with a page, and clear no more than they map. |
| `LoadMaps.StaysApart` | core/proot/src/main/cpp/execve/enter.c:311-357 | Loading another object, none of whose pages is a page of the first, leaves the first one loaded. |
| `Loader.TranscriptMappings` | core/proot/src/main/cpp/execve/exit.c:144-168 | Appends the encoding of one statement for each mapping. |
| `Loader.TranscriptScript` | core/proot/src/main/cpp/execve/exit.c:270-329 | The cursor fills the buffer with the encoding of the compiled script, of exactly the size computed beforehand. |
| `Loader.TransferLoadScript` | core/proot/src/main/cpp/execve/exit.c:174-403 | The script and its strings lie right below the stack pointer: each string is where the script says, the page to make executable is that of the stack pointer, the program header address, entry point and counts are those of the program, and the new stack pointer is aligned (to 16 bytes on 64-bit ARM). |
| `Loader.StringsPlaced` | core/proot/src/main/cpp/execve/exit.c:225-249 | The addresses computed beforehand are where the three strings end up, with their terminators. |
| `Loader.CompiledSize` | core/proot/src/main/cpp/execve/exit.c:252-262 | The size computed from the number of mappings is that of the encoded statements. |
| `Loader.DecodeEncode` | core/proot/src/main/cpp/loader/loader.c:123-188 | Decoding at the cursor undoes the encoding of any statement, whatever surrounds it. |
| `Loader.Interpret` | core/proot/src/main/cpp/loader/loader.c:111-263 | For any words at all: the loop, with its descriptor, its count of files and its AT_BASE, performs what the words mean, up to the first action that the kernel refuses or the first word that is no statement. |
| `Loader.PerformedIsTrace` | core/proot/src/main/cpp/loader/loader.c:111-263 | For the words of a program, that is exactly the actions its statements mean, up to the first one refused; otherwise the whole script is consumed. |
| `Loader.CompiledTrace` | core/proot/src/main/cpp/execve/exit.c:270-329 | Interpreting a compiled script opens the program, makes its mappings, closes it, does the same for its interpreter, makes the stack executable if needed, closes the last file and starts; AT_BASE is the first file mapping of the last object that has one. |
| `Loader.CompiledIsProgram` | core/proot/src/main/cpp/execve/exit.c:270-329 | A compiled script has one start statement, its last, and names each mapping for what it is. |
| `Loader.FilesClosedOnce` | core/proot/src/main/cpp/loader/loader.c:124-192 | Every file that is opened is used only while it is open, and closed exactly once before the program starts. |
| `Loader.CompiledEffect` | core/proot/src/main/cpp/loader/loader.c:144-170 | The memory that a compiled script leaves is that of the mappings of the program, then of its interpreter, each from its own file, the ends of pages cleared by the loops of `clear`. |
| `Loader.ExecutionEnds` | core/proot/src/main/cpp/execve/exit.c:270-329 | Of programs as `add_mapping` makes them: the last action jumps to the entry point, with AT_BASE at the first mapping of the interpreter, or of the program without one; the stack is made executable exactly when one of the two asks for it, at the page of the stack pointer; and exactly the program, and the interpreter if any, are opened. |
| `Loader.AtBaseOfLast` | core/proot/src/main/cpp/loader/loader.c:124-160 | In any script, not only compiled ones: AT_BASE is the first file mapping after the last file opened, whatever was opened and mapped before. |
| `Loader.ExecutableLoaded` | core/proot/src/main/cpp/execve/enter.c:56-124 | From end to end: any program and interpreter, their program headers turned into mappings, shifted each to its own page-aligned base with their pages apart, compiled, encoded, and the words interpreted by the loop, leave both images as the ABI asks if and only if the end of each segment can be cleared; the whole script is consumed. |
| `Intercept.Tracee.TranslateSyscall` | core/proot/src/main/cpp/syscall/syscall.c:103-226 | The stage is chosen, and the status and restart mode left, as specified. |
| `Intercept.Tracee.HandleEvent` | core/proot/src/main/cpp/tracee/event.c:389-730 | The state after an event is the specified one, and it is sound exactly when no assertion of the source fails. |
| `Intercept.Tracee.HandleTrap` | core/proot/src/main/cpp/tracee/event.c:501-577 | Enter and exit stops, with the enter stage that a seccomp event handled already. |
| `Intercept.Tracee.HandleSeccomp` | core/proot/src/main/cpp/tracee/event.c:579-649 | Detection of the order of events, skipping, and the choice between handling the enter stage now or at its stop. |
| `Intercept.Tracee.Restart` | core/proot/src/main/cpp/tracee/event.c:760-780 | The mode is remembered and cleared. |
| `Intercept.BeginKeeps` | core/proot/src/main/cpp/tracee/event.c:501-649 | The first stop of a syscall, under either order, keeps the invariant. |
| `Intercept.EnterKeeps` | core/proot/src/main/cpp/tracee/event.c:501-649 | So does the second stop of its entry. |
| `Intercept.DuringKeeps` | core/proot/src/main/cpp/tracee/event.c:651-669 | So do the events that may happen inside a syscall. |
| `Intercept.FinishKeeps` | core/proot/src/main/cpp/tracee/event.c:512-577 | At its end a syscall has had each stage as often as it was due. |
| `Intercept.StepKeeps` | core/proot/src/main/cpp/tracee/event.c:389-730 | Every step that the kernel can take keeps the invariant, and no assertion fails. |
| `Intercept.Interception` | core/proot/src/main/cpp/tracee/event.c:389-730 | Exactly-once interception, over every run of a kernel of either order where forks happen only in syscalls that no filter flags and whose handlers do not ask for the exit stage, as those of the source: no assertion fails, and each syscall has its enter stage translated exactly once when it is intercepted at all, and its exit stage exactly once when it was due and never otherwise. |
| `Intercept.FreshTracee` | core/proot/src/main/cpp/tracee/tracee.c:187-214 | A new tracee is where such runs start. |
| `Intercept.ForksRemember` | core/proot/src/main/cpp/syscall/seccomp.c:340-360 | A syscall inside which a fork may happen never has an exit stage that only its restart mode remembers: clone and clone3 are listed without a flag, fork and vfork are not listed. |
| `Intercept.ForkInside` | core/proot/src/main/cpp/tracee/event.c:409-420 | Were a filter to flag such a syscall: after a fork event inside a syscall that is due its exit stage, that stage is translated if and only if seccomp is off or something pending remembers it. |
| `Intercept.FinishExact` | core/proot/src/main/cpp/syscall/syscall.c:185-226 | After the exit stage the chain is one call shorter, with those registered behind it, and the tracee runs to the next stop of a syscall if and only if seccomp is off, it was asked for, or a call is chained. |
| `Intercept.DeliveryExact` | core/proot/src/main/cpp/tracee/event.c:409-420 | A signal in user code changes nothing but that mode, which is the default one. |
| `Intercept.StatusExact` | core/proot/src/main/cpp/syscall/syscall.c:147-179 | What the enter stage reported is what the exit stage finds, whatever happens between; nothing is kept when no exit stage comes. |
| `Sysnums.TranslateSysnum` | core/proot/src/main/cpp/syscall/sysnum.c:81-99 | For every number a tracee may choose: the table entry; for the number one past the table, whatever lies behind it; otherwise no syscall. |
| `Sysnums.OnlyKnownTranslated` | core/proot/src/main/cpp/syscall/sysnum.c:81-99 | Only numbers of syscalls are taken for syscalls if and only if what lies behind the table reads as no syscall; the number that fails is the one past the table. |
| `Sysnums.DetranslateSysnum` | core/proot/src/main/cpp/syscall/sysnum.c:104-123 | The search finds the first number of a syscall, or the avoider. |
| `Sysnums.TranslateDetranslated` | core/proot/src/main/cpp/syscall/sysnum.c:81-123 | A neutral number of an ABI is the translation of what it detranslates to. |
| `Sysnums.DetranslateTranslated` | core/proot/src/main/cpp/syscall/sysnum.c:81-123 | The number of a syscall comes back from its translation, for a whole ABI if and only if no syscall has two numbers there. |
| `Sysnums.DetranslateUnknown` | core/proot/src/main/cpp/syscall/sysnum.c:81-123 | No other number comes back, but the avoider where it is not taken for a syscall of the table. |
| `Sysnums.DetranslatedInjective` | core/proot/src/main/cpp/syscall/sysnum.c:104-123 | Within one ABI, no two syscalls detranslate to the same number. |
| `SeccompFilter.MergeFilteredSysnums` | core/proot/src/main/cpp/syscall/seccomp.c:442-482 | The two nested loops compute the specified merge. |
| `SeccompFilter.MergedFlags` | core/proot/src/main/cpp/syscall/seccomp.c:442-482 | After any merge each syscall is listed once, with all the flags that either list asked for, and exactly the syscalls that either asked for. |
| `SeccompFilter.MergedConcat` | core/proot/src/main/cpp/syscall/seccomp.c:490-523 | Merging one list of requests after the other is merging them all at once. |
| `SeccompFilter.Program.AddTraceSyscall` | core/proot/src/main/cpp/syscall/seccomp.c:97-122 | Two instructions for a number that fits in 32 bits; an error, and nothing added, otherwise. |
| `SeccompFilter.Program.EndArchSection` | core/proot/src/main/cpp/syscall/seccomp.c:130-151 | Succeeds exactly when the section has the length its first jump was computed for. |
| `SeccompFilter.Program.StartArchSection` | core/proot/src/main/cpp/syscall/seccomp.c:159-204 | The head of a section, with a jump over all that follows; the recorded length is truncated to 16 bits. |
| `SeccompFilter.Program.FinalizeProgramFilter` | core/proot/src/main/cpp/syscall/seccomp.c:211-229 | The last instruction, and the final length, truncated as well. |
| `SeccompFilter.Program.CountTraced` | core/proot/src/main/cpp/syscall/seccomp.c:271-280 | The pre-computed number of syscalls is that of the entries emitted afterwards. |
| `SeccompFilter.Program.TraceAll` | core/proot/src/main/cpp/syscall/seccomp.c:287-300 | The loops emit one entry for each request and ABI that has a number for it, and fail exactly when a number does not fit. |
| `SeccompFilter.Program.SetSeccompFilters` | core/proot/src/main/cpp/syscall/seccomp.c:253-309 | Without an error, the filter is the compiled program; there is one exactly when a number or a length does not fit. |
| `SeccompFilter.ExecSection` | core/proot/src/main/cpp/syscall/seccomp.c:159-204 | A section answers for its own architecture and falls through to the next one for any other. |
| `SeccompFilter.CompiledMeaning` | core/proot/src/main/cpp/syscall/seccomp.c:253-309 | The compiled program always reaches a return, with the verdict of the section of the architecture. |
| `SeccompFilter.CompiledWellFormed` | core/proot/src/main/cpp/syscall/seccomp.c:97-229 | Every jump is forward and lands inside the program, all constants fit, and it ends with a return. |
| `SeccompFilter.SectionCorrect` | core/proot/src/main/cpp/syscall/seccomp.c:282-305 | For an architecture every syscall gets the right verdict if and only if no two syscalls that share a number there disagree about their flags. |
| `SeccompFilter.FilterCorrect` | core/proot/src/main/cpp/syscall/seccomp.c:240-309 | The program kills syscalls of unlisted architectures; for a listed one, every number gets a trace with all the flags anyone registered for the syscall that has it, or else is allowed, if and only if no two syscalls that share a number disagree. |
| `SeccompFilter.DisjointAgree` | core/proot/src/main/cpp/syscall/seccomp.c:282-305 | ABIs whose numbers do not overlap never disagree. |
| `SeccompFilter.InstalledWhole` | core/proot/src/main/cpp/syscall/seccomp.c:211-229 | The kernel is given the whole program if and only if its length fits in 16 bits. |
| `Chain.KnownArchs` | core/proot/src/main/cpp/tracee/reg.c:61-133 | The register tables of 64-bit x86 and ARM meet what the proofs ask of one; on ARM the first argument is where the result is. |
| `Chain.Tracee.PokeReg` | core/proot/src/main/cpp/tracee/reg.c:217-229 | Changes one slot of the current bank, and remembers it only when it does change. |
| `Chain.Tracee.SaveOriginalRegs` | core/proot/src/main/cpp/tracee/reg.c:256-264 | Copies the current bank and forgets earlier changes. |
| `Chain.Tracee.PushRegs` | core/proot/src/main/cpp/tracee/reg.c:291-373 | Writes the registers back when they changed, restoring the original ones first at the end of a syscall. |
| `Chain.Tracee.SysenterStage` | core/proot/src/main/cpp/syscall/syscall.c:116-226 | The registers, both banks and the flags after an enter stage, of a requested or of a chained syscall, with any handler, error and restart mode. |
| `Chain.Tracee.SysexitStage` | core/proot/src/main/cpp/syscall/syscall.c:185-226 | The registers, the queue and the flags after an exit stage. |
| `Chain.Tracee.RegisterChainedSyscall` | core/proot/src/main/cpp/syscall/chain.c:43-96 | Appends to the queue. |
| `Chain.Tracee.ForceChainFinalResult` | core/proot/src/main/cpp/syscall/chain.c:159-163 | Remembers the last result forced. |
| `Chain.Tracee.RestartOriginalSyscall` | core/proot/src/main/cpp/syscall/chain.c:170-180 | Queues the original request, whatever its number. |
| `Chain.Tracee.ChainNextSyscall` | core/proot/src/main/cpp/syscall/chain.c:103-153 | Takes the first call of the queue into the registers, or ends the chain and forces the result. |
| `Chain.PeekRestored` | core/proot/src/main/cpp/tracee/reg.c:297-327 | A register is restored exactly when it is one of those listed and does not share the slot of the result. |
| `Chain.RestoredGivesBack` | core/proot/src/main/cpp/tracee/reg.c:297-327 | After a restore all registers the tracee is entitled to are original, and the result is untouched. |
| `Chain.EnterHolds` | core/proot/src/main/cpp/syscall/syscall.c:116-226 | After the enter stage of a requested syscall each register of the kernel holds the value poked last to its slot, by the handlers or by the end of the stage, or what the tracee had there if none was; the bank of modified registers is that of the handlers alone, that of original ones is what the tracee asked for. |
| `Chain.EnterEnds` | core/proot/src/main/cpp/syscall/syscall.c:147-183 | A syscall whose handler failed is replaced by the avoider, with the error as result; one without an exit stage gets its stack pointer back. |
| `Chain.ChainedEnterHolds` | core/proot/src/main/cpp/syscall/syscall.c:128-136 | The enter stage of a chained syscall leaves every register of the kernel alone. |
| `Chain.ExitHolds` | core/proot/src/main/cpp/tracee/reg.c:291-373 | After the last exit stage, registers that are not restored, the result among them, hold the value poked last to their slot, or what they held; the result is the forced one where a chain ends. |
| `Chain.ChainingHolds` | core/proot/src/main/cpp/syscall/syscall.c:185-226 | While calls are left to chain nothing is restored: the registers that do not make up the call hold the value poked last, or what they held. |
| `Chain.PlainExit` | core/proot/src/main/cpp/syscall/syscall.c:185-226 | An exit stage behind which nothing is chained gives the registers back, and the result poked last. |
| `Chain.ChainingExit` | core/proot/src/main/cpp/syscall/chain.c:126-152 | An exit stage with a queue moves back to the trap, which will trigger exactly the first call of the queue. |
| `Chain.RetrappedKeeps` | core/proot/src/main/cpp/syscall/syscall.c:116-161 | The trap of a chained syscall leads back to where the requested one was, and nothing is translated. |
| `Chain.LastExit` | core/proot/src/main/cpp/syscall/chain.c:110-124 | When the queue is empty the registers are given back and the result is the forced one, or else the one poked last, or else that of the last syscall. |
| `Chain.RoundKeeps` | core/proot/src/main/cpp/syscall/chain.c:103-153 | Each chained syscall, whatever it chains in turn, moves the queue on by one. |
| `Chain.ChainTransparent` | core/proot/src/main/cpp/syscall/chain.c:43-163 | Chained-syscall transparency: for any sequence registered in exit stages, exactly those syscalls are triggered, first in first out; when the chain has drained the tracee is just after its own trap, with its argument registers (but for the one that holds the result) its stack pointer, and as result the last one forced, or else the last one poked in the last exit stage, or else that of the last syscall. |
| `Chain.SyscallTransparent` | core/proot/src/main/cpp/tracee/reg.c:291-373 | The same without a chain, whatever the handlers poked: all that is left of it is the result. |
| `Chain.RestartedIsOriginal` | core/proot/src/main/cpp/syscall/chain.c:170-180 | The request that is queued triggers the very number and arguments the tracee had asked for, if and only if that number is one of a syscall, or the avoider where it is not taken for a syscall of the table. |
| `Brk.Heap.TranslateBrkEnter` | core/proot/src/main/cpp/syscall/heap.c:54-145 | The syscall that replaces brk(2), and its arguments in word arithmetic. |
| `Brk.Heap.TranslateBrkExit` | core/proot/src/main/cpp/syscall/heap.c:150-213 | What the tracee is answered and what is remembered, for each syscall that may have replaced it. |
| `Brk.ErrorTestExact` | core/proot/src/main/cpp/syscall/heap.c:163-194 | On page-aligned results the test of the low 32 bits is true exactly for errors. |
| `Brk.ErrorTestInexact` | core/proot/src/main/cpp/syscall/heap.c:163-194 | A word, not page-aligned, on which it is wrong. |
| `Brk.FirstBrk` | core/proot/src/main/cpp/syscall/heap.c:73-125 | The first call allocates the heap, with one page before it, or leaves it unset. |
| `Brk.RefusedBrk` | core/proot/src/main/cpp/syscall/heap.c:127-131 | A call below the base, or that the kernel refuses, changes nothing and answers the current break. |
| `Brk.GrantedBrk` | core/proot/src/main/cpp/syscall/heap.c:133-144 | A call that the kernel grants moves the break to the requested address. |
| `Brk.BrkStep` | core/proot/src/main/cpp/syscall/heap.c:54-213 | One call keeps the refinement and answers what a simple break pointer would. |
| `Brk.BrkRefines` | core/proot/src/main/cpp/syscall/heap.c:54-213 | Over any run of calls and kernel replies the answers are those of a simple break pointer, and the mapping is the one it stands for. |
| `Brk.HeapCovered` | core/proot/src/main/cpp/syscall/heap.c:54-213 | The break is never below the base, and the kernel maps everything up to it, from one page before the base. |
| `Brk.HeapBehindBss` | core/proot/src/main/cpp/syscall/heap.c:73-125 | A kernel that maps where it is asked to gives a heap that starts one page behind the end of the bss. |
| `Brk.NativeAnswered` | core/proot/src/main/cpp/syscall/heap.c:62-71 | Where brk(2) is left to the kernel the tracee is answered what the kernel would: the break asked for, or the native one; and PRoot leaves it so from a first call that the kernel grants. |
| `Brk.RequestNamesHeap` | core/proot/src/main/cpp/syscall/heap.c:127-145 | Any later call asks the kernel to resize exactly the mapping there is, to one page more than the heap asked for. |
| `Mem.Tracee.WriteData` | core/proot/src/main/cpp/tracee/mem.c:219-293 | Exactly the source bytes are written at [dest, dest+size), or a prefix of them on failure; it succeeds if all the words it touches are mapped, and only then unless it was done at once. |
| `Mem.Tracee.WriteLastBytes` | core/proot/src/main/cpp/tracee/mem.c:268-292 | The last word is overwritten in its relevant bytes only, and needs to be mapped as a whole. |
| `Mem.Tracee.WritevData` | core/proot/src/main/cpp/tracee/mem.c:301-334 | The buffers are written one behind the other, and nothing else is, or a first part of them on failure; it succeeds if the words that each buffer touches are mapped, and only then unless it was done at once. |
| `Mem.Tracee.ReadData` | core/proot/src/main/cpp/tracee/mem.c:341-407 | Exactly the bytes asked for are read, and the buffer is left alone past them; same condition of success. |
| `Mem.Tracee.ReadString` | core/proot/src/main/cpp/tracee/mem.c:416-541 | A length up to the maximum says that a string of that length was read, with its terminator; one more than the maximum, that there is no terminator so far; an error, that a word to read is not mapped. |
| `Mem.Tracee.ReadStringByChunks` | core/proot/src/main/cpp/tracee/mem.c:455-498 | The first loop, by chunks that do not cross a page. |
| `Mem.Tracee.ReadStringByWords` | core/proot/src/main/cpp/tracee/mem.c:503-541 | The fallback, word by word. |
| `Mem.ReadsBack` | core/proot/src/main/cpp/tracee/mem.c:219-407 | What is read where something was written is what was written. |
| `Mem.LengthTells` | core/proot/src/main/cpp/tracee/mem.c:416-541 | The length tells where the first terminator is: it is within the maximum if and only if there is a terminator there. |
| `Mem.Stack.AllocMem` | core/proot/src/main/cpp/tracee/mem.c:644-680 | Moves the stack pointer down by the size, and by the red zone the first time, or up for a negative one, and answers its new place; on overflow it answers 0 and leaves it alone. |
| `Mem.AllocatedExactly` | core/proot/src/main/cpp/tracee/mem.c:644-680 | For a positive size a block is given if and only if the stack pointer is above that many bytes (with the red zone the first time), and it starts exactly so far below; for a negative one if and only if the top of the words is not reached. |
| `Mem.BlocksGiven` | core/proot/src/main/cpp/tracee/mem.c:644-680 | Over a whole syscall, each block is given as long as the sizes up to it, with one red zone, stay below the stack pointer, and starts that sum below it. |
| `Mem.BlocksApart` | core/proot/src/main/cpp/tracee/mem.c:644-680 | All the blocks allocated during a syscall are apart from each other, from the stack in use and from its red zone, without wrapping around. |
| `TallocPool.Pool.AllocPool` | core/proot/src/main/cpp/talloc/talloc.c:682-734 | Succeeds exactly when there is room, adds one live chunk where no other is, and keeps the pool valid. |
| `TallocPool.Pool.NestPool` | core/proot/src/main/cpp/talloc/talloc.c:832-856 | Turning a member into a pool of its own keeps the outer pool valid. |
| `TallocPool.NestedInside` | core/proot/src/main/cpp/talloc/talloc.c:832-856 | A nested pool lies within what its chunk was given. |
| `TallocPool.Pool.FreePoolmem` | core/proot/src/main/cpp/talloc/talloc.c:1025-1099 | Removes one chunk; the end comes back when it was the last one, and to the first chunk when none is left; the memory goes exactly when the pool itself was freed too. |
| `TallocPool.Pool.FreePool` | core/proot/src/main/cpp/talloc/talloc.c:1186-1212 | Freeing the pool itself destroys its memory exactly when no member lives on. |
| `TallocPool.Pool.Realloc` | core/proot/src/main/cpp/talloc/talloc.c:1837-2035 | Whatever path it takes (shrink, same size, sole chunk moved to the front, same rounded size, last chunk grown in place, moved elsewhere, moved out), only that chunk changes, it has the new size, and the pool stays valid. |
| `TallocPool.PoolSafe` | core/proot/src/main/cpp/talloc/talloc.c:601-734 | In a valid pool what two users may touch is apart, 16-byte aligned and inside the pool. |
| `TallocPool.LastChunk` | core/proot/src/main/cpp/talloc/talloc.c:1085-1092 | The chunk that ends where the pool ends has nothing behind it. |
| `TallocPool.Run` | core/proot/src/main/cpp/talloc/talloc.c:682-2035 | Any sequence of operations, pools made inside the pool included, keeps the pool valid (chunks apart, aligned, inside, counted) until its memory is given back, which needs the pool freed and no member left. |
| `TallocOwners.KilledShape` | core/proot/src/main/cpp/talloc/talloc.c:1171-1182 | Taking a chunk out and marking it keeps the tree of the others, and their references. |
| `TallocOwners.HandleFreedShape` | core/proot/src/main/cpp/talloc/talloc.c:957-962 | So does freeing a reference handle. |
| `TallocOwners.StolenShape` | core/proot/src/main/cpp/talloc/talloc.c:1260-1335 | So does moving a chunk. |
| `TallocOwners.HandleFreedZoned` | core/proot/src/main/cpp/talloc/talloc.c:957-962 | Freeing a handle, or what refers into a zone, changes nothing out of that zone: a zone holds whatever is under one of its chunks. |
| `TallocOwners.KilledZoned` | core/proot/src/main/cpp/talloc/talloc.c:1171-1182 | Nor does taking out a chunk of the zone; who is being freed then has nobody of the zone above but those being freed. |
| `TallocOwners.MeetsWithin` | core/proot/src/main/cpp/talloc/talloc.c:2908-2929 | A walk up that ends in a zone was in it all the way. |
| `TallocOwners.MeetsRank` | core/proot/src/main/cpp/talloc/talloc.c:2908-2929 | What the walk finds a chunk to be under comes before it in any order that parents follow. |
| `TallocOwners.StolenBelow` | core/proot/src/main/cpp/talloc/talloc.c:1653-1684 | A chunk that is handed over takes what is below it along, and comes below nothing that refers to it from elsewhere: what is a reference from below stays so, and nothing else becomes one. |
| `TallocOwners.StolenFair` | core/proot/src/main/cpp/talloc/talloc.c:1653-1684 | So the references that a free may meet stay fair: each one from below the chunk it refers to, or from an owner that comes before, and those from below last. |
| `TallocOwners.KilledFair` | core/proot/src/main/cpp/talloc/talloc.c:1171-1182 | Taking a chunk out keeps them fair. |
| `TallocOwners.HandleFreedFair` | core/proot/src/main/cpp/talloc/talloc.c:957-962 | So does freeing a handle. |
| `TallocOwners.ReferencedOwners` | core/proot/src/main/cpp/talloc/talloc.c:1001-1021 | A reference makes its context an owner of the chunk and changes no other ownership. |
| `TallocOwners.StolenOwners` | core/proot/src/main/cpp/talloc/talloc.c:1260-1335 | Stealing replaces the parent among the owners of that chunk and changes no other ownership. |
| `TallocOwners.HandedOverAccounted` | core/proot/src/main/cpp/talloc/talloc.c:1653-1684 | Giving up the first reference and moving under its owner takes exactly the dying parent from the owners. |
| `TallocOwners.HandedOverFair` | core/proot/src/main/cpp/talloc/talloc.c:1653-1684 | Where references are fair a child that is handed over loses exactly its dying parent, and references stay fair. |
| `TallocOwners.FreedAccounted` | core/proot/src/main/cpp/talloc/talloc.c:1171-1186 | Freeing the children and then the chunk accounts for the owners of both. |
| `TallocOwners.OwnersFromBelow` | core/proot/src/main/cpp/talloc/talloc.c:1116-1131 | A chunk all of whose references come from below has no owner but its parent that comes before it: this is the chunk that is freed with them. |
| `TallocLists.FirstOut` | core/proot/src/main/cpp/talloc/talloc.c:1171-1174 | The head of a list can be taken out: the links represent the lists without it. |
| `TallocLists.LaterOut` | core/proot/src/main/cpp/talloc/talloc.c:1175-1180 | Any other one can. |
| `TallocLists.FirstIn` | core/proot/src/main/cpp/talloc/talloc.c:802-815 | A loose chunk can be put first. |
| `TallocLists.NewChunk` | core/proot/src/main/cpp/talloc/talloc.c:739-819 | A header without links is a chunk without children in no list. |
| `TallocLists.OldChunk` | core/proot/src/main/cpp/talloc/talloc.c:1186-1224 | Giving back a loose chunk without children leaves the other lists alone. |
| `TallocLists.FirstAgain` | core/proot/src/main/cpp/talloc/talloc.c:1302-1304 | Stealing the first child of a context to that context changes nothing, which is why the source may stop there. |
| `TallocLists.MovedLinks` | core/proot/src/main/cpp/talloc/talloc.c:2056-2073 | The neighbours of a moved chunk follow, and they are the only headers that have to. |
| `TallocLists.RelocatedShape` | core/proot/src/main/cpp/talloc/talloc.c:2056-2073 | A tree with one chunk at another address is a tree. |
| `TallocLists.RelocatedOwners` | core/proot/src/main/cpp/talloc/talloc.c:2056-2073 | It owns what it owned, and has the owners it had. |
| `TallocLists.StillLinked` | core/proot/src/main/cpp/talloc/talloc.c:543-584 | Chunks in no list (the null context, those being freed) keep in their headers what talloc_parent_chunk() finds. |
| `TallocLaws.OutsideComesBefore` | core/proot/src/main/cpp/talloc/talloc.c:1116-1131 | Where references are fair, the owners from outside a chunk's own subtree are those that come before it. |
| `TallocLaws.FreedWhenUnowned` | core/proot/src/main/cpp/talloc/talloc.c:1110-1224 | A chunk is freed exactly when no owner outside its own subtree remains: besides the chunk given, one is freed if and only if a free may reach it, and all its owners from outside (its parent, and the owners of references that do not come from below it) were freed. References back to ancestors do not keep it. |
| `TallocLaws.SurvivorOwners` | core/proot/src/main/cpp/talloc/talloc.c:1653-1684 | A survivor keeps exactly its owners that were not freed, and still has a parent. |
| `TallocLaws.FreedIsClosure` | core/proot/src/main/cpp/talloc/talloc.c:1110-1224 | The chunks freed are the only set that holds the chunk and just those chunks all of whose owners from outside it holds. |
| `TallocLaws.ZoneFreed` | core/proot/src/main/cpp/talloc/talloc.c:1110-1224 | When no owner from outside keeps a chunk of the subtree, all of it is freed, whatever refers to what inside. |
| `TallocLaws.SubtreeZoned` | core/proot/src/main/cpp/talloc/talloc.c:1110-1224 | A chunk that is not under itself has a subtree out of which a free changes nothing but handles of that subtree. |
| `TallocLaws.SubtreeFair` | core/proot/src/main/cpp/talloc/talloc.c:1110-1224 | When nothing refers into that subtree its references are fair, in the order of its depth. |
| `TallocLaws.SubtreeFreed` | core/proot/src/main/cpp/talloc/talloc.c:1171-1186 | Freeing a chunk frees exactly its subtree, handles included, when no reference goes into the subtree, whatever is referenced elsewhere. |
| `TallocLaws.BeneathFreed` | core/proot/src/main/cpp/talloc/talloc.c:1691-1725 | Freeing the children of a context, in the same case, frees exactly what is under it. |
| `TallocLaws.RankedFair` | core/proot/src/main/cpp/talloc/talloc.c:1110-1224 | When no chunk owns itself, even through others, and no reference hangs off the null context, references are fair wherever a free may reach. |
| `TallocLaws.UnlinkedReference` | core/proot/src/main/cpp/talloc/talloc.c:1414-1436 | Unlinking a context that holds a reference removes that ownership and no other; it remains an owner if and only if it is the parent or holds another reference. |
| `TallocLaws.UnlinkedParent` | core/proot/src/main/cpp/talloc/talloc.c:1444-1490 | Unlinking the parent makes the owner of the first reference the parent and removes exactly the old one from the owners, unless that reference hangs off the chunk itself: it still owns it if and only if so. |
| `TallocLaws.ChildrenFreed` | core/proot/src/main/cpp/talloc/talloc.c:1653-1684 | After the children of a context were freed the owners of any survivor are the old ones but for the context and those freed. |
| `TallocLaws.AbandonedOwners` | core/proot/src/main/cpp/talloc/talloc.c:1653-1684 | In any state: an owner from outside of a child that is handed over keeps it if and only if it has a reference after the first one that does not come from below, or no reference comes from below before its own, the first, and it is not the null context while the dying chunk still has a parent. |
| `TallocLaws.NullContextKeeps` | core/proot/src/main/cpp/talloc/talloc.c:1661-1681 | The dying chunk has none, for that purpose, if and only if it was not the first child of another context than the null one. |
| `TallocLaws.OwnerBelowLosesOther` | core/proot/src/main/cpp/talloc/talloc.c:1116-1131 | A concrete family, in the state that freeing the parent leaves: a chunk first referenced from its own child is handed to that child, and another owner, which lives on, has lost it. |
| `TallocLaws.NullReferenceMisplaced` | core/proot/src/main/cpp/talloc/talloc.c:1661-1681 | Another one: a chunk referenced from the null context goes to a context that never owned it, and the null context has lost it. |
| `TallocArena.Arena.constructor` | core/proot/src/main/cpp/talloc/talloc.c:2350-2358 | The null context alone is well formed. |
| `TallocArena.Arena.ParentChunk` | core/proot/src/main/cpp/talloc/talloc.c:572-584 | The walk back through the links finds the abstract parent, of any chunk: in a list, being freed, or the null context. |
| `TallocArena.Arena.TakeOut` | core/proot/src/main/cpp/talloc/talloc.c:1171-1180 | Taking a chunk out keeps every list a doubly linked list whose head alone knows its parent, each chunk in one list only; what stays in the header is the parent for a head and nothing otherwise. |
| `TallocArena.Arena.PutFirst` | core/proot/src/main/cpp/talloc/talloc.c:802-815 | So does hooking a chunk into the front of a list. |
| `TallocArena.Arena.FreeHandle` | core/proot/src/main/cpp/talloc/talloc.c:957-962 | Freeing a reference handle takes it out of both lists it is in. |
| `TallocArena.Arena.Steal` | core/proot/src/main/cpp/talloc/talloc.c:1260-1335 | On the links: the chunk becomes the first child of its new parent, and nothing else moves; stealing to the same parent included. |
| `TallocArena.Arena.IsParent` | core/proot/src/main/cpp/talloc/talloc.c:2908-2929 | Says exactly whether the walk up through the links meets the chunk within the depth limit. |
| `TallocArena.Arena.Free` | core/proot/src/main/cpp/talloc/talloc.c:1110-1224 | In any state: the references from below before the first one that does not come from below go, and that one; the chunk stays exactly when there is such a one, in exactly that state, and is freed otherwise, hence with any number of references from below and no other. Out of a zone that holds it nothing changes, and where references are fair owners change as `FreeResult` says. It terminates whatever refers to what. |
| `TallocArena.Arena.FreeReferenced` | core/proot/src/main/cpp/talloc/talloc.c:1116-1131 | The same, for a chunk with references: one goes, and the chunk is tried again if it came from below. |
| `TallocArena.Arena.FreeUnreferenced` | core/proot/src/main/cpp/talloc/talloc.c:1171-1224 | Frees the chunk, and its children or hands them over; with one child that is handed over to another chunk, the exact state that is left. |
| `TallocArena.Arena.FreeChildren` | core/proot/src/main/cpp/talloc/talloc.c:1653-1684 | No child is left; a context that is not under itself lives on; where references are fair survivors lose no owner but those freed and the context itself, get no new one, and what was freed had no other from outside. |
| `TallocArena.Arena.FreeFirstChild` | core/proot/src/main/cpp/talloc/talloc.c:1653-1684 | One turn: the first child is handed over, in exactly that state, if it has a reference that does not come from below, and freed otherwise. |
| `TallocArena.Arena.HandOver` | core/proot/src/main/cpp/talloc/talloc.c:1669-1682 | A child that could not be freed goes to the owner of its first reference, else to the parent, else to the null context; the parent that is read is there whenever nothing being freed is under itself. |
| `TallocArena.Arena.Alloc` | core/proot/src/main/cpp/talloc/talloc.c:739-819 | On the links: a new chunk, first among the children of its context. |
| `TallocArena.Arena.Reference` | core/proot/src/main/cpp/talloc/talloc.c:1001-1021 | A new handle, first among the children of its context and among the references of the chunk. |
| `TallocArena.Arena.Unreference` | core/proot/src/main/cpp/talloc/talloc.c:1414-1436 | Frees the first handle that hangs off the context, or fails without one. |
| `TallocArena.Arena.Unlink` | core/proot/src/main/cpp/talloc/talloc.c:1444-1490 | Removes the reference of the context if it has one; else, for the parent only, frees the chunk or lets the owner of the first reference take over. |
| `TallocArena.Arena.TallocFree` | core/proot/src/main/cpp/talloc/talloc.c:1762-1793 | Frees a chunk without references; with one reference and the null context as parent it unlinks that parent; otherwise it refuses and changes nothing. |
| `TallocArena.Arena.TallocFreeChildren` | core/proot/src/main/cpp/talloc/talloc.c:1691-1725 | Leaves no child, in any state, and accounts for all owners where references are fair. |
| `TallocArena.Arena.Follow` | core/proot/src/main/cpp/talloc/talloc.c:2056-2073 | The four neighbours of a chunk that was copied elsewhere point to it. |
| `TallocArena.Arena.Realloc` | core/proot/src/main/cpp/talloc/talloc.c:1858-2075 | A referenced chunk is refused; any other one that moves has, on the links, the same place in the same tree. |
| `TallocArena.Arena.Run` | core/proot/src/main/cpp/talloc/talloc.c:739-2075 | After any sequence of allocations, references, steals, unlinks, frees, frees of children and moving reallocations, the links represent the abstract forest: every sibling list is a doubly linked list whose head alone has a parent field, and each chunk is in exactly one; each operation did to the forest what it should, and a free of a chunk whose subtree nothing refers into removed exactly that subtree. |
| `PtraceWait.Emulation.AttachToPtracer` | core/proot/src/main/cpp/ptrace/ptrace.c:104-110 | The ptracee has a ptracer and nothing to tell; the ptracer counts one more. |
| `PtraceWait.Emulation.DetachFromPtracer` | core/proot/src/main/cpp/ptrace/ptrace.c:116-124 | The ptracee has none, and the ptracer counts one less. |
| `PtraceWait.AttachKeeps` | core/proot/src/main/cpp/ptrace/ptrace.c:149-207 | TRACEME and ATTACH keep the invariant. |
| `PtraceWait.Emulation.GetStoppedPtracee` | core/proot/src/main/cpp/tracee/tracee.c:243-305 | Finds the first zombie, in the order of the list, that was asked for; only without one, the first stopped ptracee that was asked for and has something to tell; and nobody only when there is none. |
| `PtraceWait.Emulation.TranslateWaitEnter` | core/proot/src/main/cpp/ptrace/wait.c:87-113 | A wait is emulated exactly when the caller has ptracees and asks for any, or for one of them. |
| `PtraceWait.Emulation.UpdateWaitStatus` | core/proot/src/main/cpp/ptrace/wait.c:121-174 | The event is told; or the ptracee is detached when the kernel tells the parent itself. |
| `PtraceWait.Emulation.BuryZombie` | core/proot/src/main/cpp/ptrace/wait.c:126-174 | A zombie goes as soon as its ptracer is told. |
| `PtraceWait.Emulation.TranslateWaitExit` | core/proot/src/main/cpp/ptrace/wait.c:181-227 | The caller is told about whom it waits for, or blocks only when nobody has anything to tell; what it is answered (a pid, no child, nothing yet, an error, or the call started again) is exactly as the tests of the source say; keeps the invariant. |
| `PtraceWait.Emulation.HasPtracees` | core/proot/src/main/cpp/tracee/tracee.c:243-314 | Says whether some ptracee or zombie is one that the wait is about. |
| `PtraceWait.Emulation.HandlePtraceeEvent` | core/proot/src/main/cpp/ptrace/wait.c:356-393 | A ptracer blocked on this ptracee is told and woken at once; the ptracee is kept stopped unless it ended or the ptracer is gone; keeps the invariant. |
| `PtraceWait.Emulation.RestartTracee` | core/proot/src/main/cpp/tracee/event.c:760-780 | A tracee that is blocked in a wait, or that ended, is not restarted. |
| `PtraceWait.EventExact` | core/proot/src/main/cpp/ptrace/wait.c:356-393 | An event of a ptracee: a ptracer blocked on it is told and runs again, if it can be restarted; the ptracee stays stopped, ended or kept for its ptracer as the source says, or is restarted when its ptracer could not be; when nobody waits, the event is kept. Nothing else changes. |
| `PtraceWait.StepWakes` | core/proot/src/main/cpp/ptrace/wait.c:383-387 | Over all kinds of steps: a wait of a blocked ptracer ends if and only if the step is an event of a ptracee that it waits for, or the end of its last one, and then it runs if it can be restarted; otherwise it waits on, for the same. |
| `PtraceWait.WokenRunning` | core/proot/src/main/cpp/ptrace/wait.c:181-393 | Over any run: whoever is blocked is stopped, and whoever leaves wait(2), at whatever step, runs if it can be restarted. |
| `PtraceWait.WaitExact` | core/proot/src/main/cpp/ptrace/wait.c:181-227 | After an emulated wait(2): what became of the caller and of the ptracee or zombie that it was told about, and that of nobody else. |
| `PtraceWait.OrphansReleased` | core/proot/src/main/cpp/tracee/tracee.c:100-139 | At the end of a ptracer its ptracees have no ptracer, nothing to tell, and run if they were kept for it; its zombies are gone. |
| `PtraceWait.OthersSurvive` | core/proot/src/main/cpp/tracee/tracee.c:85-171 | At the end of a tracee all others are still there; only its ptracees, its ptracer and its children change. |
| `PtraceWait.ResumeExact` | core/proot/src/main/cpp/ptrace/ptrace.c:210-261 | A ptracee that is resumed runs, unless it is blocked itself or ended; one that is detached has no ptracer and is no longer counted; nobody else changes. |
| `PtraceWait.EventKeeps` | core/proot/src/main/cpp/ptrace/wait.c:356-393 | Every event of a ptracee keeps the invariant. |
| `PtraceWait.WaitKeeps` | core/proot/src/main/cpp/ptrace/wait.c:181-227 | Every emulated wait keeps it. |
| `PtraceWait.RestartKeeps` | core/proot/src/main/cpp/tracee/event.c:760-780 | Every restart keeps it. |
| `PtraceWait.ResumeKeeps` | core/proot/src/main/cpp/ptrace/ptrace.c:210-261 | A ptracer that restarts a ptracee or detaches from it keeps it. |
| `PtraceWait.RemovedKeeps` | core/proot/src/main/cpp/tracee/tracee.c:85-171 | The end of a tracee keeps it: its ptracees are released, it becomes a zombie or is forgotten, and a ptracer left with nobody is woken. |
| `PtraceWait.StepKeeps` | core/proot/src/main/cpp/ptrace/wait.c:87-393 | So does every step. |
| `PtraceWait.NoLostWakeUp` | core/proot/src/main/cpp/ptrace/wait.c:181-393 | No lost wake-up, in every state any run reaches: each ptracer counts exactly the tracees and zombies that point to it, and a ptracer blocked in wait(2) has somebody to wait for, none of whom stopped with an event that it was not told, zombies included. From a state in which blocked ptracers have every event of those they wait for, running ones included, this holds in every state of the run if and only if no wait(2) of the run passes over a running ptracee with an event pending. |
| `PtraceWait.StepQuiet` | core/proot/src/main/cpp/tracee/tracee.c:253-299 | The exact condition for one step, over all of its kinds: that blocked ptracers have every event of those they wait for is kept if and only if the step is no wait(2) that finds nobody, may block, and passes over a running ptracee whose event is pending. |
| `PtraceWait.QuietExactly` | core/proot/src/main/cpp/ptrace/wait.c:181-393 | The same for runs: it holds in every state of a run if and only if no wait(2) of the run passes over an event. |
| `PtraceWait.EventPassedOver` | core/proot/src/main/cpp/tracee/tracee.c:280-282 | A concrete run from nothing at all on which it fails: two births, an attachment, an event, its ptracee restarted by its ptracer, and a wait(2) that blocks in front of the event. |
| `PtraceWait.StaleEvent` | core/proot/src/main/cpp/ptrace/ptrace.c:659-671 | The family of that run: from any state, an event that was not collected before the ptracer restarted the ptracee stays pending while the ptracer blocks. |
| `PtraceWait.StepHolds` | core/proot/src/main/cpp/tracee/event.c:760-780 | A step in which no tracee is restarted with an event pending, and the ptracer that is told can be, leaves every pending event with a tracee that was not restarted since. |
| `PtraceWait.NothingPending` | core/proot/src/main/cpp/ptrace/wait.c:181-393 | Callers that collect events before they restart are safe: over any run of such steps no wait(2) passes over an event, and blocked ptracers have every event of those they wait for in every state. |
| `PtraceWait.StepThere` | core/proot/src/main/cpp/tracee/tracee.c:85-171 | A step keeps, for all ptracers blocked until one ptracee has an event, that ptracee or its zombie there, if and only if an awaited ptracee ends with its event (or as the last one) and a wait starts while it is there. |
| `PtraceWait.AwaitedGone` | core/proot/src/main/cpp/tracee/tracee.c:141-168 | A concrete run from nothing at all on which it fails: a ptracer waits for one of its two ptracees, which dies without an event; the ptracer stays blocked until that pid, which is no more. |
| `PtraceWait.AwaitedThere` | core/proot/src/main/cpp/ptrace/wait.c:181-393 | Over any run of such steps a ptracer blocked until one ptracee has an event still has that ptracee, or its zombie. |
| `PtraceWait.InitialInv` | core/proot/src/main/cpp/tracee/tracee.c:216-234 | All of that holds when there is no tracee. |

## Left out

- Canon.Canonicalize: the links of /proc that the kernel generates, the glue built while bindings are initialised, the f2fs probe, and extensions; host files are a function from host paths to nodes. What the buffer holds after an error is not stated, nor which of the paths that POSIX resolves with more than MAXSYMLINKS links, or in a tree with links that lead back to where they are, meet ELOOP (the limit counts the links of a call and its depth). ENAMETOOLONG is characterised in one direction: no walk of paths that all fit meets it.
- Paths.PopComponent: paths are values of type `string`, and functions that edit a buffer in place return it; aliasing of buffers is not modelled.
- `translate_path` with a directory descriptor, `getcwd`, `readlink` of /proc, and the `pending` list of bindings before they are initialised.
- NameSpaces.NameSpace.EmulateMount: the arguments are taken once canonical and chopped; the choice of a host path for "proc", "sysfs", "tmpfs" and the like, and remounts, are not modelled.
- NameSpaces.NameSpace.EmulatePivotRoot: a new root of "/" is excluded, and the new root is taken once translated and chopped; the circular lists are sequences, and a binding is known by an identity given at its allocation, which stands for its address. The memory of bindings is not modelled. With a final separator, nothing is said of what put_old itself is translated to, for which the source computes a length of -1, nor of paths under it where something was bound before.
- LoadMaps.LoadInfo.AddMapping: reading ELF headers and interpreter names from files, and lack of memory.
- Loader.TransferLoadScript: the conversion of the script for 32-bit programs, the transfer itself (see `Mem.Tracee.WriteData`) and registers poked afterwards.
- Loader.Interpret: a script that stops short is refused like an unknown action; the replies of the kernel are a predicate on actions; the auxiliary vector, the shift of file offsets on some 32-bit systems and the name of the process are not modelled.
- LoadMaps.LoadCorrect: a kernel that refuses a mapping; memory is bytes with a protection and a page of a file, or none, behind them.
- Intercept.Interception: extensions whose filters flag a syscall that forks (the exact effect is `Intercept.ForkInside`), seccomp turned off by a syscall (DISABLING), SIGSYS, the workarounds for POKEDATA and for kernels that refuse to change a syscall number, single-stepping, failures to read registers, tracees without an executable yet, ARM EABI's forced exit stage of failed syscalls, and rewriting registers after a seccomp event. Handlers are a reply: whether they ask for the exit stage, fail, or chain syscalls (in exit stages).
- Chain.ChainTransparent: the call inserted at the front by the workaround for syscall numbers, enter handlers of extensions for chained syscalls, 32-bit masks, and failures to read or write registers. Handlers do not poke the instruction pointer.
- Chain.Tracee.PushRegs: ARM's separate requests to change a syscall number.
- Sysnums.TranslateSysnum: the tables are arbitrary sequences, and what lies behind one is an arbitrary number.
- SeccompFilter.Program.SetSeccompFilters: lack of memory, and the system calls that install the program; flags are sets of bits and returned words are verdicts.
- Brk.Heap.TranslateBrkEnter: 32-bit tracees; mmap and mmap2 are one request; the kernel of the model never moves a mapping it was not allowed to move, although the source would notice.
- Mem.Tracee.WriteData: `process_vm_writev` transfers as many mapped bytes as it is told to; POKEDATA through a stub, tagged pointers and single words of 32-bit tracees are not modelled.
- TallocPool.Pool.Realloc: the bytes that are copied, memory limits, fill and magic values; chunks are addresses with sizes. Chunks outside of pools are realloc(3)'s business.
- TallocArena.Arena.Free: destructors other than those of references, names that are children of what they name, and a null context that does not exist. Sibling lists are links; reference lists, which have the same links without parents, are sequences.
- TallocArena.Arena.HandOver: memory that was freed is not read, where the source does not look; the contract says when there is none to read.
- TallocArena.Arena.TallocFreeChildren: a context under itself may be freed with its children; the source would go on reading it.
- TallocArena.Arena.Run: operations whose arguments are no live chunks are left out; reparenting (`talloc_reparent`) is not modelled.
- TallocLaws.FreedWhenUnowned: holds where references are fair; `TallocLaws.AbandonedOwners` says exactly what one turn does elsewhere, and `Arena.Free` what is freed at once. Termination, the shape of the lists and what lies out of the subtree need none of it.
- PtraceWait.Emulation.HandlePtraceeEvent: it starts past the filters on events and options; the signal sent to the ptracer, the values of events and the registers they end up in are not modelled.
- PtraceWait.RemovedKeeps: `remove_tracee` is a function of the state and not a method; lists of tracees are maps, with their order in `GetStoppedPtracee` only.
- PtraceWait.Emulation.TranslateWaitEnter: process groups (a pid of 0), and a ptracer that waits before its child asks to be traced.
- PtraceWait.AttachKeeps: TRACEME by a tracee without a parent, through which the source would read a null pointer.
- Netlink replies, socket addresses, shebangs, limits, fake identities, reports and the command line: marshalling and presentation.

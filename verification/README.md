# Lufux in Dafny

Lufux writes operating system images to USB drives. This project models the parts of it whose correctness is hard to see by reading, and proves what they promise.

**The registry hive** (`CellHeap`, `HiveCells`, `NameOrder`, `HiveTree`, `HiveFile`, `WriterState`, `HiveWriter`, `HiveReader`, `HiveRoundTrip`, `HiveVisits`, `StoreBytes`, `TreeStore`, `StoreLayout`, `HiveForeign`). `HiveWriter` is a class over one growing byte buffer, a bump allocator that patches cells it has already written. Its ghost fields map offsets to typed cells and to the trees and values they hold. The reader is a set of functions over bytes that knows nothing of the writer. Every tree within the format's bounds, written bottom-up and serialised, is read back with its children sorted. `StoreBytes` states a store in literal byte positions, and `HiveForeign` does the same for hives that other programs wrote.

**The boot configuration store** (`BcdText`, `Bcd`, `BcdBuild`, `BcdDump`, `BcdForeign`, `BcdRoundTrip`, `BcdStores`, `BcdFits`, `Gpt`, `BcdMain`). Objects with typed elements on top of the hive, the dump that collects them again, and the way from a GPT disk to the loader's device element.

**Booting through GRUB** (`GrubBoot`). The patched boot and core images, against a small model of the loader that reads the block list back.

**What an ISO holds** (`IsoScan`, `IsoExact`). A search in chunks through three views, against a search of the whole front at once, and what the views show of any bytes at all.

**Writing** (`ImageCopy`, `TreeCopy`). Copies to a drive that takes and returns as little as it likes, with stop requests, progress and a bound on unsynced data.

**The wizard** (`Wizard`, `WizardWindow`, `WizardRuns`, `WizardSafety`, `WizardGuards`, `WizardConduct`, `WizardDisturbed`, `WizardPlay`). The callbacks of the window as steps on its state; a class whose methods update the fields as those steps say; runs of clicks, timer ticks, replugs, background results and writers in any order, with dialogs modal except to a drop on the window and to the answer of a file dialog; and the class played through any such run. Steps are counted from 0 in the code and from 1 in the text. A device is named without its `/dev/`.

**Two parsers** (`WimInfo`, `PoFile`), each with a printer and a round trip.

`Bytes`, `Text` and `TextLines` hold the Python operations the others share.

## What the proofs found

- The callbacks at the end of an install switch the Next button on whatever page is shown. That is the only way for the button to offer a step whose guard does not hold (`ButtonLiesExactly`), and only so can the summary show while an ISO is still being scanned (`HonestSoFar`, `DisturbedSummaryComesEarly`).
- The same callback asks to confirm on whatever page is shown, for the device the summary named last. An install that ends well off the summary, or with another dialog open, is exactly what puts the dialogs out of order (`DialogsStayInOrderExactly`). Until one does, there is one dialog and one writer at a time, each for the drive pinned last (`InOrderSoFar`).
- After such an install a writer can be queued for another name than the one pinned last: exactly when the drive pinned last has another name than the one pinned when the summary last showed (`QueuesThePinExactly`, `DisturbedWriterTakesAnotherName`). In all runs the writer still needs the identity pinned last.
- Nothing then stops a second confirmation while a writer is alive, and two writers come to be (`OneWriterExactly`, `InstallLeadsToAWriter`, `DisturbedWritersMeet`).
- Two unknown identities compare as equal, so a drive that udisks knows neither when it is pinned nor when it is checked passes, even if the disk has changed (`UnknownDrivePassesTheCheck`).
- `iso_kind` agrees with a search of the whole front when the data holds no surrogates and neither of the two letters beyond Latin-1 whose lower case is ASCII. On other data it misses nothing that is there, but can answer for a marker that is not (`LoneSurrogateInvents`): exactly when a window spells one over lone surrogates or with those letters (`ViewsShowExactly`, `VerdictExactly`).
- `copy_image` does not look at how much `pwrite` cleared, so the tail is blank only as far as that one call went.
- The display order of a store reads back exactly when no GUID is empty or holds a NUL; a description loses trailing NULs.
- A core image whose list slots all have a length runs the erase loop past the start of its first sector. If bytes 4 and 5 are not zero either, the core grows by twelve zeros in front of its last four bytes; with 2047 sectors its writes then end 12 bytes past 1 MiB (`BootsTheCore`).
- A GUID written twice shows the last type and of all its elements the last of each id.
- `device_partition` refuses GUIDs that are not 16 bytes, so a GPT that ends early gives an error rather than a store.

## Model

| member | source | states |
|---|---|---|
| `CellHeap.AllocKeepsTiles` | bcd_logic.py:37-42 | appending a cell at the end keeps the invariant that the cells tile the buffer from offset 32, 8-byte aligned, none overlapping, and disturbs no cell |
| `CellHeap.PatchKeepsTiles` | bcd_logic.py:44-45 | overwriting a field inside one cell's payload changes that payload alone: no size field, no other cell, and the tiling stays |
| `HiveCells.SetParentKeepsLaid` | bcd_logic.py:104-105 | patching field 0x10 of a key cell is the same as laying out that key with another parent; every other cell stays as it was |
| `HiveCells.SetDataKeepsLaid` | bcd_logic.py:78-80 | patching field 8 of a value cell sets its data offset and nothing else |
| `HiveCells.SetLinksKeepsLaid` | bcd_logic.py:72-73 | the descriptor's forward and backward link patch sets both links and nothing else |
| `NameOrder.OrderSorts` | bcd_logic.py:108-114 | the order of a subkey list sorts the lower-cased names, equal names in the order given, each entry once |
| `NameOrder.StableSortIsUnique` | bcd_logic.py:110 | there is only one such order, so any stable sort gives it |
| `NameOrder.SortingPermutes` | bcd_logic.py:110 | sorting keeps the multiset of entries |
| `NameOrder.LexLeMeans` | bcd_logic.py:110 | one text comes before another as a front of it or by the smaller character where they first differ |
| `NameOrder.CapitalsDoNotCount` | bcd_logic.py:110 | names that differ by ASCII capitals only compare as equal |
| `HiveTree.AdoptKeepsLinked` | bcd_logic.py:83-106 | a new key that takes loose children keeps every link right: each listed child lies below its parent and points back to it, each parent named lists its child, and exactly the loose keys have no parent |
| `HiveTree.AdoptOneMore` | bcd_logic.py:104-105 | one more turn of the parent loop changes the parent of one more child |
| `HiveTree.NewKeyHolds` | bcd_logic.py:83-106 | a key cell written after its lists and children holds the tree they make up, the children in the order its list has them |
| `WriterState.ValueKeepsSound` | bcd_logic.py:76-81 | writing a value keeps the whole heap invariant and adds a value that reads as name, type and data |
| `WriterState.KeyKeepsPromises` | bcd_logic.py:83-106 | writing a key keeps every key and value written before, its subtree included |
| `HiveWriting.HiveWriter.constructor` | bcd_logic.py:32-35 | an empty heap: the reserved header only |
| `HiveWriting.HiveWriter.Alloc` | bcd_logic.py:37-42 | returns the old end of the buffer and appends exactly one cell there |
| `HiveWriting.HiveWriter.Patch` | bcd_logic.py:44-45 | overwrites the field's bytes and nothing else |
| `HiveWriting.HiveWriter.Security` | bcd_logic.py:47-74 | adds one descriptor cell linked to itself, and keeps the invariant |
| `HiveWriting.HiveWriter.Value` | bcd_logic.py:76-81 | adds a value at a fresh offset that holds the given name, type and bytes; everything recorded earlier stays |
| `HiveWriting.HiveWriter.SubkeyList` | bcd_logic.py:108-114 | adds one leaf cell with the entries stably sorted by lower-cased name, whose bytes LeafInStore gives |
| `HiveWriting.HiveWriter.Key` | bcd_logic.py:83-106 | adds a key that holds the tree of its children and values; sets the parent field of exactly these children and leaves every other cell as it was |
| `HiveWriting.HiveWriter.Serialise` | bcd_logic.py:116-136 | the store: a checksummed header page that names the root, then the cells padded to whole pages with one free cell |
| `HiveWriting.HiveWriter.Checksum` | bcd_logic.py:132-135 | the loop computes the exclusive or of the first 127 dwords |
| `HiveFile.ChecksumCancels` | bcd_logic.py:132-135 | with the checksum stored, the header's dwords cancel to zero, the check a reader makes |
| `StoreLayout.StoreIsTiled` | bcd_logic.py:35-42 | the cells run without gap or overlap to the end of the buffer, each marked in use; the rest of the last page is one free cell, never under 8 bytes; the store ends on a page boundary |
| `StoreLayout.ParentLinksInStore` | bcd_logic.py:94-105 | in the file, every listed child's parent field holds its parent's offset, and a key's parent field is 0xFFFFFFFF exactly when no key lists it |
| `StoreLayout.SizeReads` | tools/wtg-bcd/regf.py:11-14 | the reader takes a used cell's size without its sign and without its own four bytes |
| `StoreBytes.DescriptorReads` | bcd_logic.py:47-69 | the descriptor is well formed: owned by Administrators, its group SYSTEM, and an access list whose two entries allow both all access to keys, inherited |
| `StoreBytes.SecurityInStore` | bcd_logic.py:71-74 | a descriptor cell in a file: linked to itself, one user, its length, and that descriptor |
| `StoreBytes.ValueInStore` | bcd_logic.py:76-81 | a value cell in a file, field by field at its literal position, its name character by character |
| `StoreBytes.LeafInStore` | bcd_logic.py:108-114 | a subkey list in a file: lf, the count, and for each entry the offset and then the first four characters of the name, zeros behind a shorter one |
| `StoreBytes.KeyInStore` | bcd_logic.py:83-106 | a key cell in a file, all 76 bytes of fields at their literal positions and the name behind them |
| `StoreBytes.KeysStandRight` | bcd_logic.py:83-114 | through a whole tree of keys: 0x2C marks the root alone, every key names its parent, the one descriptor and the three maxima, and each hint is the front of the name the reader finds at the entry's offset |
| `HiveReader.Subkeys` | tools/wtg-bcd/regf.py:28-49 | the loops over lf, lh, ri and li lists give the offsets of the recursive description, or the failure it has |
| `HiveReader.Values` | tools/wtg-bcd/regf.py:51-69 | the loop over a value list gives the values of the recursive description, inline data and unnamed values included |
| `HiveForeign.KeyReads` | tools/wtg-bcd/regf.py:16-26 | whoever wrote it, an nk cell reads as the fields at its literal positions, its name in Latin-1 or UTF-16 as the flag says |
| `HiveForeign.KeyReadsExactly` | tools/wtg-bcd/regf.py:16-26 | a key reads exactly where its fixed part is in the file, signed, and its name decodes |
| `HiveForeign.ListReads` | tools/wtg-bcd/regf.py:28-49 | lf, lh and li lists read as the offsets at their literal positions and an ri list as its lists one after the other, nested to any depth |
| `HiveForeign.NothingListed` | tools/wtg-bcd/regf.py:28-49 | a list of another signature, a count of 0 or the offset 0xFFFFFFFF lists nothing |
| `HiveForeign.ValueReads` | tools/wtg-bcd/regf.py:57-68 | a vk cell reads as its name, type and bytes: at most four of them in the cell itself when the length's top bit is set, else from a cell of their own |
| `HiveForeign.ValuesRead` | tools/wtg-bcd/regf.py:51-69 | a list of such values reads in order |
| `HiveForeign.TreeWalks` | tools/wtg-bcd/regf.py:71-77 | the walk of any tree of such keys and lists meets exactly its keys, parents first, their names joined by backslashes |
| `HiveRoundTrip.NkReads` | tools/wtg-bcd/regf.py:16-26 | reading a key cell gives back its name, counts and list offsets |
| `HiveRoundTrip.LeafReads` | tools/wtg-bcd/regf.py:34-38 | reading a leaf gives back its entries' offsets in order |
| `HiveRoundTrip.KeyValuesRead` | tools/wtg-bcd/regf.py:51-69 | a key's values come back with their names, types and bytes, in order |
| `HiveRoundTrip.WalkReads` | tools/wtg-bcd/regf.py:71-77 | the walk from a key yields exactly the keys of its tree, parents first; it ends because every child lies below its parent |
| `HiveVisits.UnderIsDistinct` | bcd_logic.py:83-106 | no two keys of a tree are one cell |
| `HiveVisits.WalkMeetsEachKeyOnce` | tools/wtg-bcd/regf.py:71-77 | the walk ends, lists the tree, and meets no key cell twice |
| `TreeStore.StoreReads` | tools/wtg-bcd/regf.py:71-77 | any serialised heap, whatever calls built it, walks from its root as the tree recorded there |
| `TreeStore.StoredIsSorted` | bcd_logic.py:108-114 | what is stored is the given tree with every key's children permuted into sorted order |
| `TreeStore.WriteTree` | bcd_logic.py:83-106 | writing a tree bottom-up returns a loose key that holds it sorted and keeps all trees written before |
| `TreeStore.StoreTree` | bcd_logic.py:76-136 | the hive round trip: for every tree within the format's bounds, the serialised store walks from its root with the same names, types and bytes, children sorted, each key once; its header and all its keys stand byte for byte where the format has them |
| `TreeStore.StoreStandsWhole` | bcd_logic.py:116-136 | any serialised sound heap written with one descriptor: the header page with the hive's name in UTF-16 and a checksum that cancels, the bin's header, and all keys from the root on, each byte of them at its literal position |
| `BcdText.SzRoundTrip` | bcd_logic.py:159-160 | a REG_SZ decodes to its text less trailing NULs, and to the text itself exactly when it does not end in NUL |
| `BcdText.MultiSzRoundTrip` | bcd_logic.py:163-164 | a REG_MULTI_SZ decodes to the list written exactly when no item is empty or holds a NUL |
| `BcdText.SplitNulsMeans` | tools/wtg-bcd/dumpbcd.py:36 | splitting at NULs loses nothing and leaves none in the pieces |
| `Text.Utf16RoundTrip` | bcd_logic.py:159-160 | decoding inverts encoding for every string, surrogate pairs included |
| `Text.DecodesExactly` | bcd_logic.py:159-160 | decoding accepts the encodings and nothing else |
| `Text.PlainUtf16` | bcd_logic.py:159-160 | a character below 0x10000 is two bytes, low byte first |
| `Text.LowersTo` | iso_logic.py:91 | a text lowers to one without capitals exactly when they differ by ASCII capitals only |
| `Text.LowerIsTheAlphabet` | iso_logic.py:91 | lower-casing turns each of Latin-1's 56 capitals into its small letter and changes nothing else |
| `Bcd.DevicePartition` | bcd_logic.py:179-208 | fills the descriptor as the element's layout says, or refuses a GUID that is not 16 bytes |
| `Bcd.PartitionFields` | bcd_logic.py:179-208 | a partition element holds type 6, its own length and both raw GUIDs at the offsets a loader reads |
| `BcdBuild.BuildStore` | tools/wtg-bcd/mkbcd.py:8-45 | driving the writer object by object gives a store that holds the tree of all objects |
| `BcdDump.Collect` | tools/wtg-bcd/dumpbcd.py:17-28 | the loop that fills the dictionary computes the fold over the walk |
| `BcdDump.DumpReadsTree` | tools/wtg-bcd/dumpbcd.py:11-28 | dumping a store equals folding over the tree it holds, whatever the bytes around it |
| `BcdForeign.ForeignDump` | tools/wtg-bcd/dumpbcd.py:11-28 | the dump of any such file collects the keys of its tree in the order of their lists |
| `BcdForeign.InlineType` | tools/wtg-bcd/dumpbcd.py:22-24 | a type kept inside its value cell, as Windows keeps it, is the type shown |
| `BcdDump.StepMeans` | tools/wtg-bcd/dumpbcd.py:17-28 | a type comes from the key Objects\\g\\Description alone and an element from a key Objects\\g\\Elements\\id alone; all else about the objects stays |
| `BcdDump.TypeMeans` | tools/wtg-bcd/dumpbcd.py:22-24 | of the values called Type with four bytes the last counts, low byte first |
| `BcdDump.StepsKeys` | tools/wtg-bcd/dumpbcd.py:18-20 | the objects dumped are those whose key or one below it the walk has met |
| `BcdRoundTrip.ElementMapInOrder` | bcd_logic.py:108-114 | storing elements in sorted order changes nothing of what they map to: of elements with one id the last written wins |
| `BcdRoundTrip.FoldInOrder` | tools/wtg-bcd/dumpbcd.py:17-28 | collecting the objects in the store's sorted order gives what collecting them as written gives, GUIDs written twice included |
| `BcdRoundTrip.FoldShows` | tools/wtg-bcd/dumpbcd.py:20-28 | what a GUID shows, written once or many times: the type written last and the last element of each id |
| `BcdRoundTrip.DumpShowsWhatWasWritten` | tools/wtg-bcd/dumpbcd.py:17-28 | the objects collected are exactly the GUIDs written, each with the type written last under it and the last element of each id; with distinct GUIDs each has the type and elements written |
| `BcdRoundTrip.OneObjectEach` | tools/wtg-bcd/dumpbcd.py:20 | one object is collected for each written exactly when no two share a GUID |
| `BcdStores.Mkbcd` | tools/wtg-bcd/mkbcd.py:8-45 | for every list of entries the store holds bootmgr and a loader for each |
| `BcdStores.MkbcdRoundTrip` | tools/wtg-bcd/mkbcd.py:8-45 | the BCD round trip: dumping shows bootmgr and the entries and nothing else, each with exactly its elements: the paths and locale Windows starts by, both devices, the description and the other texts, all by literal element id; the display order decodes to the GUIDs in order exactly when none is empty or holds a NUL |
| `BcdStores.MkbcdAndDump` | tools/wtg-bcd/mkbcd.py:8-45 | building and dumping one after the other, for every list the format has room for, has that outcome |
| `BcdStores.BuildBcd` | bcd_logic.py:242-291 | a store exactly when both GUIDs are 16 bytes |
| `BcdStores.WtgRoundTrip` | bcd_logic.py:242-291 | dumping a Windows To Go store shows exactly its loader and bootmgr, both with exactly their elements by literal id: both device elements are byte for byte that partition with both raw GUIDs, the paths, locale and description are the texts Windows starts by, and bootmgr starts that loader |
| `BcdStores.WtgDescription` | bcd_logic.py:286-291 | the walk of such a store begins with System, System\\Description with KeyName BCD00000000 and System set to 1, and System\\Objects |
| `BcdStores.MkbcdDescription` | tools/wtg-bcd/mkbcd.py:41-45 | the walk of mkbcd's store begins so too, with KeyName BCD alone |
| `BcdFits.WtgFits` | bcd_logic.py:242-291 | such a store always fits the format, for descriptions of up to 16 Mi characters |
| `BcdFits.MkbcdFits` | tools/wtg-bcd/mkbcd.py:8-45 | up to 4096 entries with descriptions of up to 16 Ki characters and elements of up to 64 KiB always fit, repeated GUIDs included |
| `Gpt.GptGuids` | bcd_logic.py:211-234 | the loop over the two sector sizes and the reads give the declared lookup, each error apart |
| `Gpt.FindReadsLayout` | bcd_logic.py:218-234 | on a disk laid out per sections 5.3.2 and 5.3.3 of the UEFI Specification 2.10 the lookup returns the raw GUIDs of a used partition and of the disk, and refuses an unused one |
| `Gpt.FindsExactly` | bcd_logic.py:211-234 | two whole GUIDs come out exactly on a disk whose first signed header is whole and counts the partition and whose entry has 32 bytes on the disk and a type; they are the bytes that stand there |
| `Gpt.FailsExactly` | bcd_logic.py:211-234 | each failure of the lookup apart, from the bytes of the disk |
| `BcdMain.StoreForDisk` | bcd_logic.py:294-302 | a store comes out exactly when the disk has the partition, its header and its entry whole, and holds the two GUIDs that stand there |
| `BcdMain.DiskRoundTrip` | bcd_logic.py:211-291 | GPT to BCD end to end: the loader's device elements read back from the store hold the requested partition's and the disk's raw GUIDs |
| `BcdMain.DumpForDisk` | bcd_logic.py:294-302 | the program and the dump one after the other: for every disk and number a dump comes out exactly when the disk has the partition, and shows the loader with the two GUIDs that stand there |
| `GrubBoot.BiosBootCode` | windows_logic.py:176-208 | refuses a core over 2047 sectors or with 0xFF at both 0x214 and 0x215, else returns the patched MBR and the embedded core, for every core |
| `GrubBoot.Erase` | windows_logic.py:196-200 | the erase loop ends for every core: at the first slot from byte 500 down whose length is zero, or past the sector's start, where negative bounds read bytes 4 and 5 and then insert twelve zeros before the last four bytes |
| `GrubBoot.Embed` | windows_logic.py:193-207 | the erase loop, then the new list and its terminator |
| `GrubBoot.MbrPieces` | windows_logic.py:182-188 | overwriting the five ranges one after the other gives the MBR with the disk's own parameter block and table |
| `GrubBoot.EmbeddedBytes` | windows_logic.py:193-207 | byte by byte: outside the erased and rewritten slots the core is unchanged, the erased slots are zero, the list entry is where a loader starts; only in a core that grows the last four bytes have moved |
| `GrubBoot.BootsTheCore` | windows_logic.py:176-240 | with both images written, a loader that reads LBA 1 to 0x8000 and walks the list down from byte 500 ends with all sectors of the core in memory, contiguous, other memory untouched; the writes end by 1 MiB exactly unless a core of 2047 sectors grows |
| `IsoScan.LettersShow` | iso_logic.py:91-94 | a name whose letters stand in consecutive bytes, in capitals or not, is in the first view; one in pairs of a zero and a letter is in the wide view of its offset's parity, whatever surrounds it |
| `IsoScan.LettersOccur` | iso_logic.py:91-94 | a name without capitals occurs exactly where its letters stand in either case |
| `IsoScan.WideShows` | iso_logic.py:92-94 | a marker in big-endian UTF-16 at either alignment is in the view of that alignment, on any data, stray surrogates around it included |
| `IsoScan.WideOnly` | iso_logic.py:92-94 | on clean data a marker in a decoded view is in the bytes |
| `IsoScan.NewOccurrenceInWindow` | iso_logic.py:112-118 | an occurrence not wholly inside the bytes read before lies inside the 64 carried bytes and the new chunk |
| `IsoScan.ScanCoversTheFront` | iso_logic.py:107-111 | the scan sees a front of the file, the whole file or at least the bound, and less than one read more than the bound |
| `IsoScan.WindowsAre` | iso_logic.py:107-118 | each window is one read behind the last 64 bytes before it, with less than 64 MiB read |
| `IsoScan.WindowsEnd` | iso_logic.py:107-109 | reading goes on until 64 MiB have been read or the file ends |
| `IsoScan.Look` | iso_logic.py:113-116 | the loop over the views: a Windows marker ends it, and otherwise a Linux one is noted |
| `IsoScan.VerdictIsRight` | iso_logic.py:97-121 | however reads divide the file, the verdict over the windows misses no marker in the front, and on clean data it is exactly that of searching the whole front at once |
| `IsoScan.IsoKind` | iso_logic.py:97-121 | on any data no name of the two lists, spelled out here, is missed in either case and either encoding, and clean data is answered exactly; the answer is the verdict over the windows |
| `IsoScan.LoneSurrogateInvents` | iso_logic.py:94 | the limit of exactness: an image with a lone surrogate inside a name is answered 0 though no Windows marker is in its bytes |
| `IsoExact.ViewsShowExactly` | iso_logic.py:89-94 | on any data a marker is in one of the three views exactly when the bytes show it: in single bytes, or unit by unit from any offset, with lone surrogates passed over, a Kelvin sign for a k and a dotted capital I for a last i |
| `IsoExact.VerdictExactly` | iso_logic.py:97-121 | on any data the verdict follows from the bytes of the windows, and is that of searching the whole front exactly unless a window spells a marker that decides it where none occurs |
| `ImageCopy.Device.Write` | universal_logic.py:38 | a write takes some of the bytes, at least one, or fails; at the end of the device it fails |
| `ImageCopy.CopyChunk` | universal_logic.py:36-38 | short writes or not, the device holds the image up to its position; it gives up exactly when a write fails, and otherwise writes the whole chunk |
| `ImageCopy.CopyImage` | universal_logic.py:24-41 | finished: the image is at offset 0 and all else as it was but for the wiped tail; stopped: exactly a whole number of 4 MiB chunks of it, and the stop was asked for before the next; failed exactly when the last call on the device failed; on a device over 1 MiB larger the first call asks for zeros over its last 1 MiB, which is blank afterwards when that call took them all; no other call but to write the image |
| `ImageCopy.FinishedDevice` | universal_logic.py:24-41 | byte by byte what a finished copy leaves |
| `ImageCopy.TailIsBlankIff` | universal_logic.py:28-29 | the last 1 MiB is zero afterwards exactly when the wipe, whose count is not looked at, reached every byte of it that was not zero |
| `ImageCopy.ProgressRises` | universal_logic.py:39-40 | progress strictly increases, stays within the total and reaches it with the last chunk |
| `ImageCopy.ChunkDecides` | universal_logic.py:63-70 | after the read loop the comparison decides exactly whether device and image agree one chunk further, even when the reads went past the chunk |
| `ImageCopy.VerifyImage` | universal_logic.py:48-73 | it fails exactly when a read fails; otherwise without a stop it finishes exactly when the device starts with the image and raises Mismatch exactly when it is too short or differs; a stop only when asked for, with all chunks before it equal |
| `ImageCopy.WriteImage` | universal_logic.py:92-105 | on a drive that keeps what it is sent the read back never raises Mismatch; a finished verified write means the medium starts with the image, whatever the drive did; it fails exactly when a call failed, and finishes only with one sync between the writes and the reads |
| `TreeCopy.CopyFile` | windows_logic.py:43-60 | done: the file is there byte for byte and on the medium; stopped: a front of whole chunks; unsynced data stays under SYNC_EVERY plus one chunk throughout |
| `TreeCopy.PutChunk` | windows_logic.py:50-56 | a sync comes exactly when 64 MiB have piled up |
| `TreeCopy.CopyTree` | windows_logic.py:63-80 | without a stop every file not skipped has arrived and progress equals the total; with one, the files before it have arrived, a whole-chunk front of the next one is there, nothing else has changed, and the finished ones are on the medium; progress never exceeds the total |
| `TreeCopy.ArrivedIsEveryFile` | windows_logic.py:79-80 | every copied path holds its source's bytes and every other path is unchanged |
| `TreeCopy.CopiesExactly` | windows_logic.py:64-71 | the files copied are exactly those of the walked directories |
| `TreeCopy.ChosenExactly` | windows_logic.py:67-71 | within a directory, exactly the files whose lower-cased path is not to be skipped |
| `TreeCopy.CopiedExactly` | windows_logic.py:64-71 | with names to skip that have no capitals, the files copied are exactly those of the walk whose path differs from each of them by more than ASCII capitals |
| `TreeCopy.WalkIsDistinct` | windows_logic.py:64-71 | no two files to copy share a path when no directory comes twice, in each no name twice, and no name holds a slash |
| `Wizard.ReselectNeverJumps` | main.py:67-81 | the row chosen has the old choice's name; a name that is gone gives no row; without a choice the first row only when there were no drives before |
| `Wizard.StartAsks` | main.py:733-760 | a blocked start asks nothing, and each other finding asks its one question |
| `Wizard.AnswerMeans` | main.py:835-924 | what a yes does after each dialog; a no only closes it |
| `Wizard.ListsMean` | main.py:1067-1087 | the first list, or one after none, comes with its first row chosen; later lists wait for a choice |
| `Wizard.ScansMean` | main.py:1154-1165 | a scan of the current ISO sets the kind it found, and Windows has its editions read once |
| `WizardPlay.Open` | main.py:317-424 | a window comes up as a run begins, with the drive and ISO of one it replaces |
| `WizardPlay.Dispatch` | main.py:505-1183 | every event moves the window, through the callback it triggers, as the step of a run says |
| `WizardPlay.Play` | main.py:317-1183 | the window played through any list of attempts ends as the last state of a run: its job counter, scan mark, editions, rows and summary device are right |
| `WizardWindow.Window.constructor` | main.py:317-413 | the window before its first list |
| `WizardWindow.Window.AutoRefreshDrives` | main.py:1067-1087 | updates rows, selection and last list as the step says, and only on step 1 |
| `WizardWindow.Window.GoNext` | main.py:650-659 | pins the drive when leaving step 1, advances, or asks to start |
| `WizardWindow.Window.UpdateUiState` | main.py:672-701 | sets the button and the device named as the step says |
| `WizardWindow.Window.SetIso` | main.py:1139-1149 | forgets the old editions, marks the new ISO as being scanned and starts one job |
| `WizardWindow.Window.OnDrop` | main.py:1125-1137 | takes the ISO, and leaves step 1 with the drive pinned if one is chosen |
| `WizardWindow.Window.StartReadingEditions` | main.py:559-567 | starts one job per ISO |
| `WizardWindow.Window.ApplyKind` | main.py:1154-1165 | a late scan of another ISO only counts down |
| `WizardWindow.Window.ApplyEditions` | main.py:573-583 | late editions of another ISO only count down |
| `WizardWindow.Window.OnInstallDepsResponse` | main.py:841-846 | switches Next off and counts the job |
| `WizardWindow.Window.OnDepsDone` | main.py:868-878 | counts down, switches Next on whatever the page, and asks to confirm on success |
| `WizardWindow.Window.OnWarn2Response` | main.py:903-924 | starts the writer on the device the summary named |
| `WizardWindow.Window.OnRestart` | main.py:972-983 | back to step 1 |
| `WizardSafety.EveryRunIsSound` | main.py:317-1183 | at every point of every run: the job counter is the number of jobs in flight; a scan mark names the current ISO and has a scan in flight; editions are none or the current ISO's; the rows are the last list with or without the placeholder; every writer let through had the identity pinned last |
| `WizardSafety.ImageKept` | main.py:559-583 | every event keeps the counter, the mark and the editions right |
| `WizardSafety.RowsKept` | main.py:1067-1087 | every event keeps the rows the last list, with one of them selected |
| `WizardSafety.IdentKept` | main.py:661-665 | every event keeps the identity the one pinned last |
| `WizardSafety.ChoiceNeverJumps` | main.py:1067-1087 | over whole runs the selection never goes from one device name to another without a pick by the user or a refresh that found no drives |
| `WizardSafety.RefreshFollowsTheName` | main.py:67-81 | a refresh keeps the chosen name if it is still listed and otherwise leaves no drive chosen |
| `WizardGuards.ButtonLiesExactly` | main.py:672-692 | an event makes the Next button offer a step whose guard does not hold exactly when it ends an install on one of the first two pages while that page's guard does not hold |
| `WizardGuards.ButtonIsHonestExactly` | main.py:672-692 | a run keeps the button honest throughout exactly when no install in it ends so |
| `WizardGuards.HonestSoFar` | main.py:672-692 | until an install ends so, the button is honest and the summary ready |
| `WizardGuards.SummaryComesEarlyExactly` | main.py:650-659 | an event brings the summary up early exactly by going on from the ISO page while its guard does not hold |
| `WizardGuards.SummaryIsReadyExactly` | main.py:689-692 | a run never shows the summary with a scan pending exactly when it never goes on so |
| `WizardGuards.SummaryNamesThePin` | main.py:661-701 | in every run the drive chosen on the pages past the first is the one pinned last, and the summary names it |
| `WizardGuards.QueuesThePinExactly` | main.py:903-924 | confirming queues a writer for the device the summary last named; it is not the drive pinned last exactly when that one has another name than the one pinned when the summary last showed, never on the summary itself, and only a late install lets anyone confirm elsewhere |
| `WizardGuards.WriterNeedsThePin` | main.py:1175-1183 | in every run a writer is let through exactly when the device's identity now equals the one pinned last; it was confirmed after a summary that named it; its name is not the one pinned last exactly when that has changed since that summary, and then a late install has ended before |
| `WizardGuards.DialogsLeaveOrderExactly` | main.py:868-878 | the event that puts the dialogs out of order is exactly a late install: one that ends well off the summary or with a dialog open |
| `WizardGuards.DialogsStayInOrderExactly` | main.py:868-878 | over whole runs at most one dialog is open, and only on the summary, exactly when no late install ends |
| `WizardGuards.InOrderSoFar` | main.py:868-924 | until a late install ends, at every point of a run at most one dialog is open and only on the summary, at most one writer or failure dialog is there and only on the last page, and every waiting writer is for the drive pinned last |
| `WizardGuards.OneWriterExactly` | main.py:903-924 | a run never has two writers exactly when nobody confirms while one is waiting or writing, and every such confirmation comes after a late install |
| `WizardGuards.InstallLeadsToAWriter` | main.py:868-924 | three events after any install that ends well, whatever the page and whoever is writing, one more writer is alive |
| `WizardConduct.GuardedKept` | main.py:650-701 | every event that does not enable Next during an install keeps all guards at once |
| `WizardConduct.UndisturbedRunKeepsTheGuards` | main.py:841-878 | a rule of conduct enough for every guard: nothing enables Next while tools are being installed |
| `WizardDisturbed.DisturbedSummaryComesEarly` | main.py:868-878 | a run in which going back during an install that then fails leads to the summary while an ISO is still being scanned |
| `WizardDisturbed.DisturbedWriterTakesAnotherName` | main.py:868-871 | a run in which an install ends after another drive was pinned, and its dialog lets a writer through to the name the summary had shown before; the button has no part in it |
| `WizardDisturbed.DisturbedWritersMeet` | main.py:868-924 | a run in which two dialogs are open at once and two writers end up at work on one device |
| `WizardDisturbed.UnknownDrivePassesTheCheck` | main.py:1178-1183 | a run in which a device unknown when pinned and when checked passes, though the disk has changed in between |
| `WimInfo.ParseWimInfo` | main.py:112-139 | the loop over the lines of the text computes the fold of the single-line steps |
| `WimInfo.LinesMean` | main.py:128-139 | Index and Name lines add an edition, Total Bytes are added to the last one and Hard Link Bytes taken off |
| `WimInfo.OtherLines` | main.py:129 | a line of any other key changes nothing |
| `WimInfo.DecimalReadsBack` | main.py:131 | int() inverts the decimal rendering |
| `WimInfo.IntsAre` | main.py:133 | decimal digits with or without a minus sign are read as the number they spell, and nothing else is read |
| `TextLines.SplitJoined` | main.py:130 | lines that hold no break come back from the text they were joined to |
| `TextLines.StringLines` | main.py:128 | a string splits at CR LF and at each of the codes splitlines breaks at, and nowhere else |
| `TextLines.FileLines` | i18n.py:54-55 | the lines of a text file end at LF, CR and CR LF and nowhere else |
| `TextLines.StripIsTheMiddle` | main.py:131 | stripping leaves exactly what stands between the blank at both ends |
| `WimInfo.WimInfoRoundTrip` | main.py:112-139 | a listing in wimlib's key order, other lines anywhere, either size left out or not, parses back from its text to the indices and names with total less hard links, for names with no white space at either end |
| `PoFile.ReadPo` | i18n.py:43-75 | the loop over the lines of the file computes the fold of the single-line steps |
| `PoFile.FeedMeans` | i18n.py:56-73 | line by line what the reader does, keyword by keyword |
| `PoFile.ContainsMeans` | i18n.py:65 | a comment marks an entry fuzzy exactly when the word stands somewhere in it |
| `PoFile.QuoteRoundTrip` | i18n.py:68-73 | every string, NUL included, survives quoting and literal_eval |
| `PoFile.PlainReads` | i18n.py:68-73 | without a backslash a literal is the text up to its one closing quote, which ends the line, and nothing else reads |
| `PoFile.HexEscapes` | i18n.py:68-73 | x, u and U take 2, 4 and 8 hexadecimal digits and stand for the character with that number, surrogates and numbers past Unicode excepted |
| `PoFile.OctalEscapes` | i18n.py:68-73 | up to three octal digits make one character |
| `PoFile.RawNulIsRefused` | i18n.py:68-73 | a literal that holds a raw NUL is never read |
| `PoFile.PoRoundTrip` | i18n.py:43-75 | the text of printed entries, however split into lines and with or without blank lines between, reads back as what they mean |
| `PoFile.LastTranslationWins` | i18n.py:50-52 | a message is in the catalogue exactly when an entry that is not fuzzy translates it with a text that is not empty, and the last such entry wins |

## Left out

- Sizes that `struct.pack` refuses (names over 65535 bytes, 65536 subkeys or more, a store that reaches 4 GiB) are preconditions of the writer's methods rather than errors; so is a name outside Latin-1.
- Passing one child to two keys, which the callers never do: `HiveWriter.Key` asks for children that have no parent yet.
- The reader's errors are one outcome: that reading fails is modelled, not which exception is raised.
- Python's recursion limit. The reader's functions carry a depth bound and a separate outcome for running out of it; any bound not below the file's length is enough.
- Text lower-casing beyond Latin-1, except the two letters that matter to the scan.
- ImageCopy.CopyImage: does not model an image that changes while it is copied.
- TreeCopy.CopyTree: does not model errors of the file system; a file is taken to be written whole or the copy to raise.
- WizardGuards.WriterNeedsThePin: does not model the time between the check and the writer opening the device.
- The speed gate of Windows To Go and its dialogs, the rebuild of the window after a change of language beyond its initial state, and the closing of the window.
- The capacity check and the choice of edition, scheme and dependencies: they appear as what the user is asked next.
- The texts of the two placeholder rows are taken in English.
- PoFile.ReadPo: reads one double-quoted literal after spaces and tabs, with all escapes but named characters and lone surrogates; other Python expressions, and a form feed in front, count as a failed read. Contexts and plural forms are not read by the program either.
- The answer of a file dialog is taken to come while its page is shown.
- WimInfo.WimInfoRoundTrip: numbers are decimal digits with at most a minus sign; underscores and other digits that Python's int() accepts count as an error.
- D-Bus, mounting, wimlib, libntfs, the speed measurement, configuration, notifications and the widgets themselves.

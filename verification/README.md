# Verified models of the Imparo core

A Dafny 4.11 project that models the parts of the repository whose correctness is hardest to see from
the code, and proves what they promise. `dafny verify dfyconfig.toml` checks everything.

**The public export** (`ExportRecord`, `ExportJson`, `ExportDisk`, `ExportPlan`, `ExportHost`, `ExportAdmission`, `ExportRuns`,
`ExportDirs`; `dev_harness/public_export.py`). A host owns
a disk and changes it one atomic operation at a time. Every operation may succeed, be refused, take
effect and still be reported as failed, or be the moment power goes. `ExportDisk.Finishable` says exactly
from which disks an uninterrupted recovery succeeds and `Finish` what it makes of them; every step of
apply and of recovery keeps both, so any number of crashes, in recovery too, end in the last committed
plan or in the initial state. `ExportRecord` counts the bytes of the recovery record and `ExportJson` is its text,
`ExportAdmission` says which destinations are exported to and what
an apply leaves there, of the directory, its marker and its index themselves, `ExportRuns` builds runs at given disks, and `ExportDirs` is the one place where directories are entries of their own.

**The host KV cache and attention** (`KvRule`, `KvRows`, `KvAttend`, `KvHeads`, `KvRefine`, `KvCut`, `KvHost`,
`KvRun`, and `Half` for the conversions; `crates/imparo-cpu/src/backend_impl.rs`). Ring, page-table and identity addressing
against an unbounded flat cache, prompts cut anywhere, regions, raw byte views. `KvRun` runs the methods
themselves over the parts of a prompt. Floating-point operations are arbitrary functions applied in the
source's order, so the equalities are exact.

**The convolution snapshot** (`ConvSnapshot`; the same file). The closed form against token-by-token shifts.

**Stream-K seams and tile variants** (`StreamK`, `MmqFold`, `MmqProduct`, `MmqTile`, `Q8Layout`; `tools/triton-kernel-lab` and
the native kernel it reproduces). The directly located boundary against a scan over all workers, the
two-accumulator fold against the native walk over segments and against the matrix product itself, block-size independence of a whole launch, and
the byte layout shared by the Q8 writer and the matrix kernel.

**The composed Metal kernel** (`MegaProgram`, `MegaLists`, `MegaRace`, `MegaKernel`, `MegaOutcome`;
`crates/imparo-metal`). A phase list is emitted as statements; many threadgroups run them at once, with a counter barrier, a cap on
every wait, a sticky error word and a self-resetting exit. All interleavings are considered.

**Three smaller pieces.** `BuildStream` and `BuildIdentity` (`crates/imparo-cuda/build_support.rs`), `TableLayout`
(`dspark-paper/harness/html2tex.py`), `Allowlist` (`dev_harness/public_allowlist.py` and the exporter's parser).
`Numbers` and `Lex` hold arithmetic and ordering facts used by several modules.

## Where the code and its promises part

Each of these is proved, with the exact condition beside it.

- Applying again the plan whose marker is already shown makes the old and the new marker equal. A crash once
  one file has moved strands the export for good: every later recovery and apply raises and changes nothing
  (`ReapplyStrands`, `StoppedFate`, `ReadyIsExact`). One file exported twice is enough (`OneFileStrands`).
- An adopted Git destination of more than 2048 files whose record is within 4 MiB publishes a record that loading
  then refuses: every later recovery and apply raises and changes nothing (`OversizeStrands`). Worktrees of 2049 to
  35000 empty files with five-character names are such (`OversizeRun`). A larger record is refused before it is
  written: the apply raises, leaves no record and changes nothing that is shown (`Host.Apply`); so it is from 35250 of
  these files on (`TooLargeRun`), and for every destination of more than 36792 files (`ManyNeverFit`). In all, an apply
  can strand the export if and only if its record is within the ceiling and the plan is not `Ready` (`StrandsExactly`).
- A first export that loses power after making a directory and before moving a file into it is stranded, because
  undoing it cannot remove the destination. Every stop of the installation is safe if and only if no file lies in
  a directory (`ExportDirs.SafeIsFlat`, `CrashThenRecover`); undoing has such stops as well (`UnlinkIsClean`).
- An apply that leaves no record and another visible state behind raises, although it committed, if and only if
  its last operation took effect and was then reported as failed (`Host.Apply`). Any plan that can be applied has
  such a run: the unlink of the record reports late (`CommittedYetRaised`).
- `f16_from_f32` is described as rounding to nearest even. It sends ties away from zero, and agrees with the
  description exactly on inputs that are not midpoints above an even pattern (`EvenExceptOnTies`).
- "A cut anywhere reproduces a cold pass" holds for a ring exactly when the batch and the window before it fit
  the ring together (`RingHidesCuts`).
- The direct seam lookup agrees with the scan on every tile if and only if there is at most one worker more than
  tiles, or a tile has eight blocks (`LookupIsExact`). The contraction shape at 128 tokens has 20 tiles; on 30
  workers its tile 2 is cut at 208 and the lookup says it is not cut (`CrowdedGridDiffers`). The native
  full-tile route is taken only with two tiles or more a worker.
- The reader and the writer of the Q8 buffer agree only at 512 tokens (`StridesAgree`).
- A tracked file name that holds a line feed prints as two allowlist lines (`LineFeedIsTwoPaths`); a generated
  list is read back unchanged exactly when it passes the exporter's own checks (`RoundTrip`).

## Model

| member | source | states |
|---|---|---|
| ExportHost.Host.Recover | dev_harness/public_export.py:1037-1104 | From any disk at all: it reports committed or rolled back only when the disk was recoverable and is now the outcome; every interruption keeps the outcome; the record goes only with a complete recovery; with no fault it fails exactly on unrecoverable disks; it drops no destination file but one holding its recorded new content |
| ExportHost.Host.Load | dev_harness/public_export.py:957-1000 | A record loads if and only if it is within the byte ceiling and either list has at most 2048 files, none twice |
| ExportAdmission.PendingIsRefused | dev_harness/public_export.py:957-1049 | With a record that is none, that does not load, whose new marker is shown over anything but exactly its new files, or that knows neither marker, every recovery and every apply raises and changes nothing |
| ExportHost.Host.Rollback | dev_harness/public_export.py:1054-1103 | Undoing keeps the final outcome at every stop, fails closed on any disk, and succeeds without faults exactly when the disk is recoverable |
| ExportHost.Host.Cleanup | dev_harness/public_export.py:1014-1034 | Leftovers go file by file and the record last; an unknown file stops it with the backup intact; a changed record after failure means the last operation took effect late |
| ExportHost.Host.RestoreOne | dev_harness/public_export.py:1073-1090 | One old file ends in its place or the roll back refuses; nothing else is disturbed and the outcome is kept |
| ExportHost.Host.DropNew | dev_harness/public_export.py:1063-1072 | Only destination files holding their recorded new content are unlinked, and afterwards no new-only file remains |
| ExportHost.Host.SettleDest | dev_harness/public_export.py:1091-1100 | A roll back finishes only with exactly the old files, and removes a destination this transaction made |
| ExportHost.Host.WriteStage | dev_harness/public_export.py:942-954 | The stage holds exactly the plan's files, or an unfinished stage is all that differs |
| ExportHost.Host.MoveOut | dev_harness/public_export.py:1165-1170 | At every stop some set of old files is in the backup and the others are in place |
| ExportHost.Host.InstallAll | dev_harness/public_export.py:1171-1177 | New files come in one by one, and the collision branch is never taken |
| ExportHost.Host.Commit | dev_harness/public_export.py:1179-1183 | The marker changes in one step, from a disk that already holds exactly the new files |
| ExportHost.Host.Publish | dev_harness/public_export.py:1156-1160 | The record is published exactly within its byte ceiling, after the staged files and an empty backup; too large a record is refused with none left, and for its size when nothing else failed |
| ExportHost.Host.Transact | dev_harness/public_export.py:1161-1187 | Every stop is one of the listed intermediate disks; returning normally means committed and swept |
| ExportHost.Host.Apply | dev_harness/public_export.py:1107-1223 | Returning normally means exactly this plan is shown; otherwise the disk is still recoverable to the old state or to this plan; with the record gone and another state shown it raised if and only if its last operation was late; a record that loading refuses makes it raise and change nothing; one too large to write makes it raise and leaves no record and nothing shown changed; when a fault-free apply succeeds, exactly, the byte ceiling included |
| ExportHost.Host.ReadInventory | dev_harness/public_export.py:1112-1128 | The branches over the marker, the destination and its index raise or give the old inventory, as the functions below describe |
| ExportAdmission.ApplyUnmarked | dev_harness/public_export.py:1117-1128 | Nothing pending and no marker, any faults: a destination with anything in it is left as it is, with the reason named, unless it is a Git worktree whose index is its files; without faults the plan is applied if and only if the destination is absent, empty or such a worktree |
| ExportAdmission.ApplyMarked | dev_harness/public_export.py:1112-1116 | With a marker: one that does not read, lists over 2048 files or one twice, or has no destination, and a destination that is not exactly the listed files, are refused with the disk unchanged; otherwise the plan is applied |
| ExportAdmission.AppliedShows | dev_harness/public_export.py:1129-1187 | A normal return leaves the files of the plan and no other, Git's index as it was, and a marker naming the plan's tree, allow list and files |
| ExportAdmission.UnmarkedIsAdmitted | dev_harness/public_export.py:911-929 | The exact condition over destination and index, and which error each refusal gets |
| ExportAdmission.MarkedIsAdmitted | dev_harness/public_export.py:801-858 | The exact condition over the marker's list and the destination's files, record by record |
| ExportHost.CommittedYetRaised | dev_harness/public_export.py:1014-1034 | For any plan that can be applied, an unlink of the record that takes effect and is reported as failed gives an apply that raises with the plan shown and no record |
| ExportHost.Host.ReapplyStrands | dev_harness/public_export.py:1041-1050 | An identical plan cut off after a move: every later apply, with any plan and any faults, raises and changes nothing |
| ExportHost.Host.OversizeStrands | dev_harness/public_export.py:988-998 | Over 2048 files and a record within the byte ceiling: the apply raises with the destination as it was, and every later apply, with any plan and any faults, raises and changes nothing |
| ExportRuns.OneFileStrands | dev_harness/public_export.py:1041-1050 | One file, exported again with power going after its move, is missing for good |
| ExportRuns.ReapplyRun | dev_harness/public_export.py:1041-1050 | Every repeated export, cut off after any number of moves, gives such a run |
| ExportRuns.OversizeRun | dev_harness/public_export.py:988-998 | A clean worktree of 2049 to 35000 files blocks every later apply |
| ExportRuns.TooLargeRun | dev_harness/public_export.py:898-901 | One of 35250 files or more is refused with nothing pending |
| ExportRuns.ManyNeverFit | dev_harness/public_export.py:898-901 | No record of more than 36792 files is within the ceiling |
| ExportRuns.OrdinaryFits | dev_harness/public_export.py:898-901 | Within the file ceilings and with entries of at most 1000 bytes every record is |
| ExportRecord.ListIsInventory | dev_harness/public_export.py:882-901 | A list of records takes the same bytes in whatever order it stands |
| ExportRecord.MarkerFits | dev_harness/public_export.py:1138-1140 | When the record is within the ceiling, so is the marker of its plan |
| ExportJson.RecordBytesAreText | dev_harness/public_export.py:1142-1158 | The bytes held against the ceiling are the length of the record's text, key by key and escape by escape, for any digests of 64 digits |
| ExportJson.MarkerBytesAreText | dev_harness/public_export.py:747-763 | And those of the marker's |
| ExportHost.Campaign | dev_harness/public_export.py:1037-1202 | Any number of applies, each failing or crashing anywhere: a final undisturbed recovery leaves exactly the last committed plan or the initial state, and no record |
| ExportDisk.FinishedIsSettled | dev_harness/public_export.py:1037-1104 | Recovery is idempotent and never changes the marker |
| ExportDisk.UnlinkLosesNothing | dev_harness/public_export.py:1079-1086 | Unlinking a new file loses nothing, in either direction, when its old content is backed up |
| ExportDisk.RestoreLosesNothing | dev_harness/public_export.py:1087-1088 | Moving a backup file back loses nothing, in either direction |
| ExportDisk.SweepingKeepsFate | dev_harness/public_export.py:1014-1034 | A cleanup stopped anywhere keeps the disk as recoverable as it was, with the same outcome |
| ExportDisk.SweptIsFailClosed | dev_harness/public_export.py:1101-1103 | A roll back that stops inside cleanup has still only removed recorded new content and added recorded old content |
| ExportPlan.UncommittedFate | dev_harness/public_export.py:1158-1178 | Before the commit, a disk is recoverable exactly when the record loads and the markers differ or nothing is missing; recovery then restores the old state |
| ExportPlan.NothingIsLost | dev_harness/public_export.py:1158-1183 | Until the marker is replaced the record stands, every old file is in the destination or the backup, and the destination holds only old and new files |
| ExportPlan.CommittedIsNew | dev_harness/public_export.py:1183-1187 | From then on the destination is exactly the new files, however far the cleanup gets |
| ExportPlan.CommittedFate | dev_harness/public_export.py:1183-1187 | Once the marker is replaced recovery goes forward to the plan |
| ExportPlan.MidwayFate | dev_harness/public_export.py:1158-1187 | Wherever an apply stops, the outcome is the old state or the plan, and the marker tells which |
| ExportPlan.StoppedFate | dev_harness/public_export.py:1041-1050 | A crash after k moves can be recovered exactly when the plan is not the one shown, or k is 0 |
| ExportPlan.ReadyIsExact | dev_harness/public_export.py:988-998 | Once the record is published, no crash before the commit can strand the apply if and only if both inventories fit the loader's file ceiling and the plan is not a non-empty one already shown; for the directories of a first export see `ExportDirs.SafeIsFlat` |
| ExportPlan.StrandsExactly | dev_harness/public_export.py:898-998 | Before anything is published: an apply can strand the export if and only if its record is within the byte ceiling and one of those conditions fails |
| ExportDirs.Destination.Install | dev_harness/public_export.py:1171-1177 | However many operations there is power for, the destination holds the files moved so far and the directories made so far for the next |
| ExportDirs.Destination.RemoveEmptyParents | dev_harness/public_export.py:932-939 | Only the given directory and those above it go, none of those left is empty, and every operation removes one entry |
| ExportDirs.Destination.Undo | dev_harness/public_export.py:1063-1100 | With power enough it succeeds if and only if every directory leads to a file; a stray directory survives every recovery, complete or cut off |
| ExportDirs.StopIsClean | dev_harness/public_export.py:1174-1177 | A stop leaves no stray directory exactly when no directory was made since the last file moved in |
| ExportDirs.SafeIsFlat | dev_harness/public_export.py:1171-1177 | Every stop of a first export can be undone if and only if no file of the plan lies in a directory |
| ExportDirs.UnlinkIsClean | dev_harness/public_export.py:1070-1072 | A stop between an unlink and the removal of its parents leaves none exactly when every one of them still leads to a file |
| ExportDirs.CrashThenRecover | dev_harness/public_export.py:1091-1100 | Every stop is reached; an uninterrupted recovery then succeeds under exactly that condition, and when it fails so does the next |
| Half.FromSingleRounds | crates/imparo-cpu/src/backend_impl.rs:50-74 | Every non-NaN input goes to the pattern whose rounding interval holds it, subnormals and infinity included, with its sign |
| Half.Nearest | crates/imparo-cpu/src/backend_impl.rs:50-74 | No binary16 value is nearer, and of two equally near the larger magnitude is taken (section 4.3.1 of IEEE 754-2019 names the rule) |
| Half.KeepsOrder | crates/imparo-cpu/src/backend_impl.rs:50-74 | Narrowing is monotone over all signed values and infinities |
| Half.NanNarrows | crates/imparo-cpu/src/backend_impl.rs:52-57 | A NaN, like an infinity, narrows to the infinity of its sign |
| Half.EvenExceptOnTies | crates/imparo-cpu/src/backend_impl.rs:48-74 | The result is the nearest-even one if and only if the input is no midpoint above an even pattern |
| Half.TiesToEvenIsOne | crates/imparo-cpu/src/backend_impl.rs:48 | That nearest-even result is one pattern |
| Half.OneAndAHalfUlp | crates/imparo-cpu/src/backend_impl.rs:65-74 | A concrete tie that goes to the odd pattern |
| Half.WidenExact | crates/imparo-cpu/src/backend_impl.rs:78-99 | Widening a finite pattern is exact |
| Half.RoundTrip | crates/imparo-cpu/src/backend_impl.rs:50-99 | Widening and narrowing is the identity exactly on the patterns that are not NaN |
| KvRule.MaskIsMod | crates/imparo-cpu/src/backend_impl.rs:176-193 | Masking with a power of two less one is the remainder |
| KvRule.RingApart | crates/imparo-cpu/src/backend_impl.rs:176-193 | A ring keeps an interval of positions in distinct slots exactly when it is long enough |
| KvRule.PagedApart | crates/imparo-cpu/src/backend_impl.rs:186-191 | A page table keeps all its positions apart exactly when it is injective |
| KvRows.StoredRow | crates/imparo-cpu/src/backend_impl.rs:692-703 | A stored row is what its slot holds; every other slot keeps its row |
| KvRows.ReadsAsFlat | crates/imparo-cpu/src/backend_impl.rs:675-704 | Under any rule a slot holds what an append-only cache holds for its position, while no other position reaches the slot |
| KvRows.InOrderUndisturbed | crates/imparo-cpu/src/backend_impl.rs:692-703 | In an in-order run a position is undisturbed exactly when no later one shares its slot |
| KvRows.RingWindow | crates/imparo-cpu/src/backend_impl.rs:692-766 | Every read of the window returns the row last stored for its position if and only if window + n - 1 fits the ring |
| KvAttend.SplitInvariance | crates/imparo-cpu/src/backend_impl.rs:948-953 | Storing and attending the parts of a prompt in order gives the outputs and the cache of the uncut pass, for every cut |
| KvAttend.AttendSplits | crates/imparo-cpu/src/backend_impl.rs:729-766 | The outputs of an earlier part do not see the rows of a later one |
| KvHeads.WindowHolds | crates/imparo-cpu/src/backend_impl.rs:739-743 | A token reads exactly the positions not after it and fewer than the window before it |
| KvHeads.GroupReads | crates/imparo-cpu/src/backend_impl.rs:745-765 | Of a K or V row the query heads of group j read the columns of key-value head j |
| KvHeads.OutputOfHead | crates/imparo-cpu/src/backend_impl.rs:744-766 | A query head's part of the output stands at its own offset and is made from its part of the query and those columns of the window's rows |
| KvHeads.GroupSeesItsColumns | crates/imparo-cpu/src/backend_impl.rs:744-766 | Caches that agree on those columns over the window give the head the same output, whatever all else holds |
| KvCut.RingHidesCuts | crates/imparo-cpu/src/backend_impl.rs:948-950 | For a ring no cut shows, for any arithmetic and content, if and only if the batch and its window fit the ring |
| KvCut.CutShows | crates/imparo-cpu/src/backend_impl.rs:948-950 | Two positions of the batch and its window that share a slot give an arithmetic and a content for which a cut shows |
| KvRefine.SameOutputs | crates/imparo-cpu/src/backend_impl.rs:675-774 | Two caches whose rules keep every part apart give the same outputs over a whole prompt |
| KvRefine.RingIsFlat | crates/imparo-cpu/src/backend_impl.rs:176-193 | Ringed attention over any prompt equals attention over an unbounded flat cache |
| KvRefine.PagedIsFlat | crates/imparo-cpu/src/backend_impl.rs:186-193 | So does paged attention with an injective table |
| KvRefine.RelocationKeepsOutput | crates/imparo-cpu/src/backend_impl.rs:321-327 | Moving physical blocks and rewriting the table changes no output |
| KvRefine.RelocationKeepsPrompts | crates/imparo-cpu/src/backend_impl.rs:321-327 | Nor any output of a prompt that goes on after the move, in any parts, both tables being injective |
| KvRefine.RegionsIsolated | crates/imparo-cpu/src/backend_impl.rs:328-337 | Over any interleaving of region switches, a region holds what its own conversation alone would have stored |
| KvHost.Ctx.KvStore | crates/imparo-cpu/src/backend_impl.rs:675-704 | The method stores exactly the narrowed batch under the live rule, on one side of one layer, and changes nothing else |
| KvHost.Ctx.Slot | crates/imparo-cpu/src/backend_impl.rs:176-192 | The lookup through region, ring and page table is the live rule's slot |
| KvHost.Ctx.KeyScore | crates/imparo-cpu/src/backend_impl.rs:751-753 | The loop is the dot product summed from the left |
| KvHost.Ctx.Softened | crates/imparo-cpu/src/ops.rs:572-583 | The three loops in place are the softmax the outputs are stated with |
| KvHost.Ctx.Attention | crates/imparo-cpu/src/backend_impl.rs:705-774 | The attention buffer gets every token's attention output in order; the query buffer is scaled in place; every other buffer keeps its values |
| KvHost.Ctx.SetPageTable | crates/imparo-cpu/src/backend_impl.rs:321-327 | One layer's table is replaced, growing the list with empty tables |
| KvHost.Ctx.SetRegion | crates/imparo-cpu/src/backend_impl.rs:328-337 | One layer's offsets are replaced and every other layer keeps its own |
| KvHost.Ctx.ReadKvBytes | crates/imparo-cpu/src/backend_impl.rs:298-307 | The bytes returned are the live region's cells, little-endian |
| KvHost.Ctx.WriteKvBytes | crates/imparo-cpu/src/backend_impl.rs:308-320 | The decoded cells replace their range of the live region, and no other cell |
| KvHost.Ctx.Write | crates/imparo-cpu/src/backend_impl.rs:268-276 | A range of one buffer is replaced, growing it with zeros, and every other buffer keeps its values |
| KvHost.RowsAreBatch | crates/imparo-cpu/src/backend_impl.rs:729-773 | The attention buffer is the batch of outputs the other theorems speak of |
| KvHost.ViewsAgree | crates/imparo-cpu/src/backend_impl.rs:176-185 | The byte view and the slot view address the same cells if and only if the region starts on a whole row |
| KvHost.WriteBackIsIdentity | crates/imparo-cpu/src/backend_impl.rs:298-320 | Writing back the bytes just read changes no cell |
| KvHost.RestoreFromCheckpoint | crates/imparo-cpu/src/backend_impl.rs:298-320 | Writing bytes read earlier restores exactly their range, whatever happened since |
| KvRun.RunPart | crates/imparo-cpu/src/backend_impl.rs:675-774 | Writing a part's buffers, storing its K and V and attending it leaves the layer and the output that the batch functions name, and no other layer changes |
| KvRun.StoreThenRead | crates/imparo-cpu/src/backend_impl.rs:675-704 | The bytes at a stored position's place in a live region that starts on a whole row are the narrowed row, low byte first |
| KvRun.RunPrompt | crates/imparo-cpu/src/backend_impl.rs:948-953 | The methods run over parts of any sizes leave the caches and the outputs of the whole prompt run at once, when the prompt and its window fit the layer's rules |
| ConvSnapshot.AfterIsShifts | crates/imparo-cpu/src/backend_impl.rs:443-485 | The closed form after n tokens is n one-token shifts, for every n |
| ConvSnapshot.AfterComposes | crates/imparo-cpu/src/backend_impl.rs:443-485 | Snapshots compose |
| ConvSnapshot.RowByChunks | crates/imparo-cpu/src/backend_impl.rs:470-476 | Of a gated row in three equal chunks the first is multiplied by the third, channel by channel |
| ConvSnapshot.Snapshot | crates/imparo-cpu/src/backend_impl.rs:442-485 | The buffer gets the register after n tokens in either form, and every other cell keeps its value |
| StreamK.SeamIsScan | tools/triton-kernel-lab/q4_q8_mmq_variants_10240x2560.py:32-47 | With at most one worker more than tiles the located seam is what a scan over every worker's boundary finds |
| StreamK.LookupIsExact | tools/triton-kernel-lab/q4_q8_mmq_variants_10240x2560.py:32-47 | When a tile is a multiple of eight blocks they agree on every tile if and only if there is at most one worker more than tiles, or a tile has eight blocks |
| StreamK.LocateSeam | tools/triton-kernel-lab/q4_q8_mmq_variants_10240x2560.py:38-47 | The kernel's arithmetic is the seam of the theorems |
| StreamK.AlignedIs | tools/triton-kernel-lab/q4_q8_mmq_variants_10240x2560.py:42-43 | An aligned boundary is at most seven units before the even share, in the same tile, a multiple of eight into it |
| StreamK.SeamIsOffset | tools/triton-kernel-lab/q4_q8_mmq_variants_10240x2560.py:38-47 | A tile holds at most one interior boundary; the located worker owns it and the seam is its offset |
| StreamK.TilesGrow | tools/triton-kernel-lab/q4_q8_mmq_variants_10240x2560.py:38-42 | Consecutive boundaries fall in different tiles |
| StreamK.AlignedTile | tools/triton-kernel-lab/q4_q8_mmq_variants_10240x2560.py:42-43 | Rounding down to eight blocks keeps a boundary in its tile |
| StreamK.EvenGridHasNoSeam | tools/triton-kernel-lab/q4_q8_mmq_2560x10240.py:25-27 | A grid that divides the tiles evenly cuts none |
| StreamK.CrowdedGridDiffers | crates/imparo-cuda/native/sm80/mmq_q4_q8_1.cuh:948-962 | On 20 tiles of 320 blocks and 30 workers the scan finds 208 in tile 2 and the lookup finds nothing |
| StreamK.OneOwner | tools/triton-kernel-lab/q4_q8_mmq_variants_10240x2560.py:38-43 | On every grid, crowded ones too, the aligned boundaries give every unit of work exactly one worker |
| StreamK.CutTileOwners | tools/triton-kernel-lab/q4_q8_mmq_variants_10240x2560.py:43-47 | A cut tile is two consecutive workers', divided at the seam |
| StreamK.WholeTileOwner | tools/triton-kernel-lab/q4_q8_mmq_variants_10240x2560.py:43-47 | An uncut tile is one worker's |
| MmqFold.TileNumbers | tools/triton-kernel-lab/q4_q8_mmq_variants_2560x10240.py:36-40 | Valid elements lie in tiles below the count, and share one exactly when they share a 128 x 128 block |
| MmqFold.TilesAreUsed | tools/triton-kernel-lab/q4_q8_mmq_variants_2560x10240.py:36-40 | Every tile below the count holds a valid element |
| MmqProduct.ElementIsProduct | tools/triton-kernel-lab/q4_q8_mmq_variants_2560x10240.py:53-83 | Where no operation rounds, the stored element is the sum over all columns of the dequantized weight times the dequantized activation, each from its own bytes and scale, wherever the seam lies |
| MmqProduct.BlockProduct | tools/triton-kernel-lab/q4_q8_mmq_variants_2560x10240.py:77-78 | The two scales of a block stand outside the integer sum over its columns |
| MmqTile.BlockTerm | tools/triton-kernel-lab/q4_q8_mmq_variants_2560x10240.py:54-78 | The loop over 32 lanes and the two scalings, in the kernel's order, are a block's contribution |
| MmqFold.Q4Unpacks | tools/triton-kernel-lab/q4_q8_mmq_variants_10240x2560.py:50-55 | The weights packed two to a byte, sixteen apart, are those multiplied |
| MmqFold.DotFits | tools/triton-kernel-lab/q4_q8_mmq_variants_10240x2560.py:54-74 | A block's integer part never leaves 32 bits |
| MmqFold.KernelFoldIsSegments | tools/triton-kernel-lab/q4_q8_mmq_variants_10240x2560.py:75-80 | Adding each block to one accumulator and zero to the other gives the suffix segment's sum plus the prefix segment's |
| MmqFold.SegmentBegin | crates/imparo-cuda/native/sm80/mmq_q4_q8_1.cuh:627-634 | The scan below a segment's end finds the seam, or the tile's start |
| MmqFold.WalkSegments | crates/imparo-cuda/native/sm80/mmq_q4_q8_1.cuh:623-881 | The native walk over segments, last to first, returns that two-segment sum |
| MmqFold.ElementIsNative | tools/triton-kernel-lab/q4_q8_mmq_variants_10240x2560.py:32-80 | Each stored element is the native value |
| MmqTile.ProgramTileIsNative | tools/triton-kernel-lab/q4_q8_mmq_variants_2560x10240.py:32-39 | For block sizes dividing 128 all elements of a program lie in the tile its formula names |
| MmqTile.BaselineTile | tools/triton-kernel-lab/q4_q8_mmq_2560x10240.py:30 | The baseline's formula names the same tile at 64 x 64 |
| MmqTile.Program | tools/triton-kernel-lab/q4_q8_mmq_variants_2560x10240.py:24-85 | A program writes its own rows and valid tokens, each with its element, and no other address |
| MmqTile.Launch | tools/triton-kernel-lab/build_q4_q8_mmq_variants.py:299-308 | The programs of a launch in any order leave an output that no block size appears in; padding keeps its value |
| MmqTile.GridCovers | tools/triton-kernel-lab/build_q4_q8_mmq_variants.py:304-308 | Every element's program is in the launch grid |
| MmqTile.OutputIsElements | tools/triton-kernel-lab/q4_q8_mmq_variants_2560x10240.py:83-85 | The output holds each element at token * stride + row |
| Q8Layout.CellOfAddress | tools/triton-kernel-lab/rms_q8.py:41-59 | A cell's address lies in the buffer and names only that cell |
| Q8Layout.AddressOfCell | tools/triton-kernel-lab/rms_q8.py:41-59 | Every byte of the buffer is one cell's: values and scales tile each 144-byte record |
| Q8Layout.WriteToken | tools/triton-kernel-lab/rms_q8.py:41-59 | A token's program writes exactly its own cells |
| Q8Layout.WriteAll | tools/triton-kernel-lab/rms_q8.py:21-59 | All programs in any order leave every byte written with its cell |
| Q8Layout.ReaderSeesValue | tools/triton-kernel-lab/q4_q8_mmq_variants_2560x10240.py:61-71 | The matrix kernel loads, lane by lane, the column that was quantized |
| Q8Layout.ReaderSeesScale | tools/triton-kernel-lab/q4_q8_mmq_variants_2560x10240.py:72-76 | And the scale that was rounded |
| Q8Layout.StridesAgree | tools/triton-kernel-lab/rms_q8.py:45 | Reader and writer strides agree only at 512 tokens |
| MegaProgram.Kernel | crates/imparo-metal/build.rs:265-320 | The emitted statements, on every entry, do what the phase list says |
| MegaProgram.Frame | crates/imparo-metal/build.rs:278-313 | A probe crosses one barrier and runs nothing; otherwise the entries the token names, at least one, run their sequences with a grid barrier between them, up to the first that the entry check refuses |
| MegaProgram.WalkedAre | crates/imparo-metal/build.rs:289-292 | Which entries a token names: the first alone in the per-layer form, else those from its index on, one at least, and two tokens side by side name what one does |
| MegaProgram.ProbeWritesNothing | crates/imparo-metal/build.rs:278-287 | However a probe runs, waits that time out included, it leaves the memory as it was |
| MegaProgram.ScheduleCalls | crates/imparo-metal/build.rs:287-310 | A schedule runs exactly the phases the entries enable, in order |
| MegaProgram.StretchesHoldPhases | crates/imparo-metal/mega_program.rs:35-43 | Barriers only group phases; they neither drop nor reorder any |
| MegaProgram.DispatchIsPhaseList | crates/imparo-metal/build.rs:265-320 | Whatever the interleaving, a healthy dispatch leaves the memory of the enabled phases run one after another, a clear error word and cleared counters |
| MegaLists.CounterFits | crates/imparo-metal/native/imparo.metal:13402-13428 | For all four lists, at every step of every run, timeouts and refusals included, the barrier counter is below ten arrivals a threadgroup and entry, so a 32-bit counter does not wrap while that product fits |
| MegaLists.RefusalsComeFirst | crates/imparo-metal/mega_program.rs:60-138 | In all four lists, on every entry, a phase that may refuse is the first to run in its stretch between grid barriers |
| MegaLists.CallsAreNumbered | crates/imparo-metal/mega_program.rs:60-138 | The phases of the four lists stand in call order, and exactly the attention phases may refuse an entry |
| MegaProgram.Emitted | crates/imparo-metal/build.rs:265-320 | The emitted body inside its frame, from the token: the probe's one barrier, or the schedule of the entries up to the first refused |
| MegaProgram.TokenIsPhaseList | crates/imparo-metal/build.rs:265-320 | When every threadgroup runs that and no entry was refused, a healthy run that can go no further leaves the memory of the phases of the token's entries run one after another |
| MegaRace.StoresOnce | crates/imparo-metal/mega_program.rs:35-42 | An operation puts the value of its function, on what its loads hold, in its own cell and nowhere else |
| MegaRace.AgreesStep | crates/imparo-metal/mega_program.rs:35-42 | One more operation of any threadgroup keeps every threadgroup's own view |
| MegaRace.InterleavingIsReference | crates/imparo-metal/mega_program.rs:35-42 | A race-free stretch leaves the same memory in every interleaving |
| MegaKernel.CountedStep | crates/imparo-metal/native/imparo.metal:13402-13428 | The barrier counter is the sum of the arrivals at every step, and the last one out clears it |
| MegaOutcome.SoundStep | crates/imparo-metal/native/imparo.metal:13402-13428 | While the error word is clear every step keeps all threadgroups in one stretch |
| MegaOutcome.NobodyOvertakes | crates/imparo-metal/mega_program.rs:11-12 | Threadgroups stay within one barrier of each other and none works past one that is not full |
| MegaOutcome.SomeoneCanMove | crates/imparo-metal/build.rs:276-313 | No deadlock: until all are done some threadgroup has a healthy step |
| MegaOutcome.RunsAreBounded | crates/imparo-metal/build.rs:276-313 | Every run, healthy or not, ends within the work and the barriers there are |
| MegaOutcome.RunLength | crates/imparo-metal/build.rs:276-313 | From the start, at most its operations and two steps a stretch of every threadgroup |
| MegaOutcome.ClearRunIsReference | crates/imparo-metal/build.rs:276-313 | A finished run with a clear error word ran every phase, and left the counters ready |
| MegaOutcome.HealthyRunIsReference | crates/imparo-metal/build.rs:276-313 | A healthy run that can go no further is such a run |
| MegaOutcome.HealthyRunCompletes | crates/imparo-metal/build.rs:276-313 | Any healthy run can be carried on to its end |
| MegaOutcome.EveryExitClears | crates/imparo-metal/native/imparo.metal:14315-14325 | When all leave by the exit the counters are cleared, timeouts or not |
| MegaOutcome.ErrorStopsDispatch | crates/imparo-metal/native/imparo.metal:14297-14307 | A dispatch that finds the error word set touches nothing |
| BuildStream.LeRoundTrip | crates/imparo-cuda/build_support.rs:33-38 | Little-endian lengths decode to themselves |
| BuildStream.DecodeEncoded | crates/imparo-cuda/build_support.rs:33-38 | The stream of any list of fields decodes to that list |
| BuildStream.StreamIsInjective | crates/imparo-cuda/build_support.rs:58-74 | Two builds hash the same bytes exactly when every input is the same |
| BuildIdentity.InventoryHas | crates/imparo-cuda/build_support.rs:10-56 | Exactly the two fixed files and, under native, every file with one of the five extensions that lies in no directory called tests, each once and in path order |
| BuildIdentity.SourceNames | crates/imparo-cuda/build_support.rs:20-22 | A file is a source exactly when its name is a non-empty text, a dot, and one of the five extensions |
| BuildIdentity.PathDecides | crates/imparo-cuda/build_support.rs:56 | Paths are ordered by the first name they differ in, names by their first differing byte (`Lex.LexDecides`) |
| BuildIdentity.CanonicalText | crates/imparo-cuda/build_support.rs:66 | Joining and then replacing every backslash gives the text that is hashed |
| BuildIdentity.CanonicalDetermines | crates/imparo-cuda/build_support.rs:66-67 | When names hold neither slash nor backslash, equal texts mean equal paths |
| BuildIdentity.BackslashCollides | crates/imparo-cuda/build_support.rs:66 | A backslash in a name gives the text of another path |
| BuildIdentity.SameIdentity | crates/imparo-cuda/build_support.rs:40-74 | With such names two builds hash the same bytes if and only if settings, paths and the content of every path agree |
| BuildIdentity.Collect | crates/imparo-cuda/build_support.rs:10-31 | The walk pushes the sources of a directory in walk order |
| BuildIdentity.ListedOnce | crates/imparo-cuda/build_support.rs:10-31 | The walk takes no path twice |
| BuildIdentity.OrderIsUnique | crates/imparo-cuda/build_support.rs:56 | There is one sorted list of a collection of paths |
| BuildIdentity.OrderDoesNotMatter | crates/imparo-cuda/build_support.rs:42-43 | However directories are enumerated, the inventory is the same |
| BuildIdentity.Reordered | crates/imparo-cuda/build_support.rs:10-31 | Any reordering of a directory is such an enumeration |
| BuildIdentity.NativeBuild | crates/imparo-cuda/build_support.rs:45-74 | The bytes fed to the digest are the stream of the inputs |
| BuildIdentity.IdentityIsExact | crates/imparo-cuda/build_support.rs:40-74 | Equal streams mean equal inputs down to canonical paths and contents, and re-enumeration changes nothing |
| TableLayout.Printer.RenderRow | dspark-paper/harness/html2tex.py:403-436 | The row machine computes the recursive rendering and the row's colour, for any cells, styles and held columns |
| TableLayout.HowCellsAreDressed | dspark-paper/harness/html2tex.py:423-430 | Which alignment and paragraph flag reach a cell's text, and what is put around it: nothing in a header or around an empty text, else bold or italics by the row's class |
| TableLayout.RowIsRight | dspark-paper/harness/html2tex.py:409-436 | On a table that tiles its grid a row is as wide as the grid, shows what it should in every column, and holds the right columns for the next |
| TableLayout.ExampleTiles | dspark-paper/harness/html2tex.py:409-436 | A table with a cell over two rows and one over two columns tiles its grid |
| TableLayout.PrintTable | dspark-paper/harness/html2tex.py:358-360 | So does every row of the table |
| TableLayout.PrintedOnce | dspark-paper/harness/html2tex.py:410-415 | Each cell's text appears at exactly one place, its first column in its last row |
| TableLayout.WidestIsWidth | dspark-paper/harness/html2tex.py:343 | The column count taken is the grid's width |
| Allowlist.ParseDenylist | dev_harness/public_allowlist.py:27-36 | The rules are those the lines of the text state, in order |
| Allowlist.LineStatesRule | dev_harness/public_allowlist.py:31-35 | The line written for a rule states that rule if and only if the pattern survives stripping and, for a denial, is not empty and starts with neither # nor ! |
| Allowlist.DenylistRoundTrip | dev_harness/public_allowlist.py:27-36 | Such rules written one a line are read back, in their order |
| Allowlist.OtherLinesIgnored | dev_harness/public_allowlist.py:31-33 | A blank line or a comment anywhere changes nothing |
| Allowlist.LineEnds | dev_harness/public_allowlist.py:30 | Each line break of `str.splitlines` ends one line, CR LF together |
| Allowlist.LastLine | dev_harness/public_allowlist.py:30 | A text without a line break is one line, or none |
| Allowlist.BlanksAndBreaks | dev_harness/public_allowlist.py:30-31 | Which code points end a line and which are stripped |
| Allowlist.StripDropsBlanks | dev_harness/public_allowlist.py:31 | Stripping removes the blanks at both ends and nothing else |
| Allowlist.IsDenied | dev_harness/public_allowlist.py:45-50 | A path is denied exactly when the last rule that matches it denies it |
| Allowlist.DirectoryRuleDecides | dev_harness/public_allowlist.py:39-50 | A rule that ends in a slash decides every path under that directory, for any glob and whatever came before it, and no other path |
| Allowlist.PatternRuleDecides | dev_harness/public_allowlist.py:39-50 | Any other rule decides exactly the paths its glob accepts |
| Allowlist.NothingDenied | dev_harness/public_allowlist.py:45-50 | Without rules nothing is denied |
| Allowlist.HideDirectory | dev_harness/public_allowlist.py:60-71 | With a directory as the last line of the deny list nothing under it is listed but the two required files, and everything else as the lines before decide |
| Allowlist.UnusedHas | dev_harness/public_allowlist.py:69-70 | A pattern is reported exactly when a rule states it and no tracked file is under it or accepted by it |
| Allowlist.Generate | dev_harness/public_allowlist.py:60-71 | The list is ascending and holds exactly the files not denied and the two required ones; the unused patterns are reported |
| Allowlist.AscendingIsUnique | dev_harness/public_allowlist.py:68 | A set of paths has one ascending list |
| Allowlist.SplitJoin | dev_harness/public_export.py:413 | Splitting at line feeds undoes joining |
| Allowlist.Parse | dev_harness/public_export.py:404-434 | The parser gives the verdict of the checks in their order |
| Allowlist.RoundTrip | dev_harness/public_export.py:404-434 | A generated list is read back unchanged if and only if it passes the exporter's checks |
| Allowlist.GenerateThenParse | dev_harness/public_allowlist.py:60-71 | Parsing the generated bytes returns exactly the ascending list of what is not denied if and only if that list passes the exporter's checks; whatever is returned prints as those bytes |
| Allowlist.AcceptedIsExportable | dev_harness/public_export.py:404-434 | Everything accepted is an ascending list of at most 2048 non-empty paths without control characters that passes the other checks and prints as it was read |
| Allowlist.LineFeedIsTwoPaths | dev_harness/public_allowlist.py:71 | A name holding a line feed prints as two |

## Left out

- Real file I/O, fsync ordering, Windows replace calls, reparse points and the advisory lock of the exporter: one applier at a time, each rename, unlink, write and replace atomic.
- ExportPlan.ReadyIsExact: in `ExportDisk` making a parent and renaming into it is one step and empty directories do not exist, so it speaks of inventories and markers only. The stops between the two are the subject of `ExportDirs`, which covers a destination the export creates and leaves out markers and records.
- Empty directories left in a destination that existed before: nothing there removes the destination, but one can stand where a later plan has a file; and a destination that was empty and unmarked is no longer empty (public_export.py:1118), so the next apply tries to adopt it and refuses it as unmanaged, where `ExportPlan.Objection` sees no files and accepts it.
- SHA-256, sizes and modes are equality of file contents and the executable bit; a marker's bytes are its parsed manifest; the ceilings on file sizes, markers over the ceiling that the exporter did not write, record authority fields and path validation are not modelled. The ceiling of the recovery record is.
- `_atomic_json` is one operation; its temporary file is not on the modelled disk.
- The order in which old files move out is arbitrary in the model, which covers the source's order.
- Git's part in adopting a destination: an index is an inventory, and being clean is equality with the files.
- ExportHost.Campaign: a plan that is already shown, or that has either inventory over the file ceiling, is skipped, because `ReapplyStrands` and `OversizeStrands` prove that applying it can strand the export.
- KvRefine.RingIsFlat: stated for a window, because without one no finite ring holds the whole prompt.
- KvHost.Ctx.Attention: rows outside the cache and unmapped pages, on which the source panics, are preconditions.
- Integer widths of positions, offsets and lengths are unbounded; no wrap-around is modelled outside `Half` and the 32-bit dot product.
- `ops` arithmetic other than softmax (matrix products, delta net), rope, norms, sampling and the remaining backend operations.
- Device memory of the matrix kernels is a function of the address, so out-of-range loads are not excluded; register-level staging in shared memory, `mma` fragments and the virtual schedule of the native kernel.
- MmqProduct.ElementIsProduct: for elements none of whose operations rounds, as section 4.3 of IEEE 754-2019 has it; no bound on the error where they do.
- MmqFold.KernelFoldIsSegments: assumes that adding zero to a sum that started at zero changes nothing, which section 6.3 of IEEE 754-2019 gives for round to nearest.
- The normalisation and quantisation arithmetic of `rms_q8.py`: the quantized columns and rounded scales are inputs.
- Threads inside a threadgroup: a threadgroup's operations are one sequence, so its own barriers are no steps. Phase bodies are arbitrary operations with fixed footprints.
- MegaKernel.CountedStep: the barrier target and the counter are unbounded; `MegaLists.CounterFits` says how far they go. The exit's fetch-add and its two resets are one step.
- Memory ordering: operations are sequentially consistent, as the fences of the barrier intend.
- The texts of the emitted kernel's head and its debug records.
- MegaKernel.Do: a threadgroup may refuse an entry at any point, which covers the entry check and the fallible phases without tying refusals to them.
- File names that are not UTF-8, symbolic links, and the digest itself in the build identity.
- BuildIdentity.IdentityIsExact: equal streams give equal canonical paths; `SameIdentity` needs names without slashes and backslashes, because two paths can share a text otherwise (`BackslashCollides`).
- A cell's own text (`cell_tex`), which is an arbitrary function here, and captions, notes, column rules and the HTML scanning of the table printer.
- UTF-8 decoding of the allowlist, `fnmatch`, normalisation and case folding: texts are code points, glob and fold are arbitrary functions, the remaining path checks an arbitrary predicate.
- The Gate-A auditors, release scanners, schema validators, benchmark drivers and bridges: long but shallow, or code outside this repository's sources.

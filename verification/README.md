# Desktop client: verified models

Dafny 4.11 models of the in-memory algorithms and small state machines of the Vibex desktop client, with proofs that
hold for every input and every run. `dafny verify dfyconfig.toml` checks the whole project.

## What is modelled

**Image editor** (`apps/desktop/src/image_editor.rs`)

- `Images`, `Line`, `Raster`, `Shapes` (with `Basics` and `Arithmetic` below them): the integer line walk, the brush and
  the shapes. The walk is proved to be the ideal line rounded half up; the in-place drawing is proved equal to
  recolouring exactly the pixels the brush reaches. Machine integers are subset types of `int`, so the verified
  methods never leave the range of `u32` or `i64`. The cast of a brush pixel to `u32` is modelled as reduction modulo
  2^32.
- `Mosaic`, `MosaicLaws`: the block loops that read and write one buffer, against a pure specification; idempotence and
  per-channel conservation.
- `EditSession`: the undo/redo session as a class, refining a timeline with a cursor.
- `Crop`, `SvgText`: cropping and XML escaping as functions.

**File watching** (`apps/desktop/src/file_watch.rs`)

- `WatchEvents`, `Debounce`: absorbing raw events and splitting a channel into bursts. Time is a sequence of signals: an
  event, a silence of one window, the sender's end. The receiver may close after any number of batches.
- `Routing`: declared targets and the map from reported paths to editor keys; path normalization is a parameter.
- `Registry`: the reconciler as a class over a platform watcher whose calls may fail, and all its runs.

**Browser panel** (`apps/desktop/src/browser_surface.rs`)

- `Textures`, `TextureLaws`: who owns each image, per surface as a class and over any interleaving of any number of
  surfaces; which image is shown.
- `Downloads`: the download card and its hide timer.

**Directory picker** (`apps/desktop/src/directory_picker.rs`)

- `Listing`, `Picker`, `PickerLaws`, `MountPath`: what a directory shows, the browse/confirm machine with answers that
  arrive late, and the octal decoder of the mount table. The file system's answers are parameters.

## Where code and comments part

- `route` says it keeps the strongest kind per key, but inserts last-wins. `Routing.StrongestIffLast` gives the exact
  condition on a batch under which both agree, `Routing.StrongestIffDistinct` the condition on its paths under which they
  agree for all kinds, and `Routing.WeakerKindCanWin` a batch where they do not.
- `list_entries` says a broken link is skipped. It is in a folder picker, but a file picker lists it as a file:
  `Listing.BrokenLinkListed`.
- `attach` moves a surface to another tab without clearing the downloads of the last one: `Downloads.StepTabIff`.
- A brush at the top of the `u32` range wraps to the far side of the image: `Shapes.BrushIsDisc`,
  `Shapes.StrokeIsDiscsIff`, `Shapes.StrokeExactIff`.
- A backslash that does not start a valid escape swallows up to three characters: `MountPath.FixedIff`,
  `MountPath.MalformedSwallows`.

## Model

| member | source | states |
|---|---|---|
| `Line.StepRefines` | apps/desktop/src/image_editor.rs:484-500 | the two tests on the doubled error take exactly the steps to the next rounded centre, keep the error term, and the doubled error stays within three spans |
| `Line.WalkIsRoundedLine` | apps/desktop/src/image_editor.rs:475-501 | after k steps the longer coordinate has moved k and any coordinate floor(k*d/n + 1/2) |
| `Line.RoundIsFloor` | apps/desktop/src/image_editor.rs:475-501 | the rounding used by the walk is the floor of p/q + 1/2, with its remainder |
| `Line.WalkEnds` | apps/desktop/src/image_editor.rs:484-500 | the walk starts at `from` and stands at `to` after exactly max(abs dx, abs dy) moves and never earlier |
| `Line.WalkConnected` | apps/desktop/src/image_editor.rs:491-499 | consecutive centres are distinct 8-neighbours |
| `Line.WalkInBox` | apps/desktop/src/image_editor.rs:486-500 | every centre stays in the bounding box of the end points |
| `Line.ReversedWalk` | apps/desktop/src/image_editor.rs:475-501 | the reversed line retraces the centres if and only if no step falls halfway between two pixels |
| `Line.ReversedLineDiffers` | apps/desktop/src/image_editor.rs:475-501 | a concrete line whose reverse passes through another pixel |
| `Raster.PaintOffset` | apps/desktop/src/image_editor.rs:506-517 | one disc offset recolours exactly the pixel its cast lands on, without leaving `i64` |
| `Raster.PaintBrush` | apps/desktop/src/image_editor.rs:503-520 | the buffer afterwards is the old picture with exactly the pixels reached by the disc, or by its overhang past 2^32, recoloured |
| `Raster.Advance` | apps/desktop/src/image_editor.rs:491-499 | the second half of the loop body moves the walk's state from centre k to centre k + 1 |
| `Raster.Radius` | apps/desktop/src/image_editor.rs:485 | twice the radius is at most the width, or 1, and less than 2 below it |
| `Raster.DrawLine` | apps/desktop/src/image_editor.rs:475-501 | terminates for all end points after max(abs dx, abs dy) moves; the buffer is the old picture with the union of brush marks at the rounded centres |
| `Shapes.StrokePixel` | apps/desktop/src/image_editor.rs:475-520 | a pixel has the stroke colour exactly when touched or already so coloured, and otherwise keeps its value |
| `Shapes.StrokeIdempotent` | apps/desktop/src/image_editor.rs:475-520 | repeating a stroke changes nothing |
| `Shapes.StrokesCommute` | apps/desktop/src/image_editor.rs:142-152 | strokes of one colour commute |
| `Shapes.StrokeIsDiscs` | apps/desktop/src/image_editor.rs:503-520 | when coordinates plus radius stay below 2^32 a stroke of any length is the union of plain discs around its centres |
| `Shapes.StrokeIsDiscsIff` | apps/desktop/src/image_editor.rs:475-520 | a stroke recolours exactly the image pixels within the radius of some centre if and only if none of its brushes overhangs the coordinate range onto the image, for lines that with their brush span less than 2^32 |
| `Shapes.StrokeExactIff` | apps/desktop/src/image_editor.rs:475-520 | the same for every line: if and only if no wrapped cast lands on an image pixel that is not near any centre |
| `Shapes.BrushIsDisc` | apps/desktop/src/image_editor.rs:511-516 | a brush paints exactly its disc clipped to the image if and only if it does not overhang the coordinate range onto the image |
| `Shapes.OverhangExample` | apps/desktop/src/image_editor.rs:511-516 | a concrete brush that paints the far side of the image |
| `Shapes.ApplyBrush` | apps/desktop/src/image_editor.rs:137-140 | the brush tool is one stroke of the mark colour with the size-dependent width |
| `Shapes.OutlineIsFourSides` | apps/desktop/src/image_editor.rs:148-151 | the four sides together touch exactly what a brush at some outline point touches |
| `Shapes.ApplyRectangle` | apps/desktop/src/image_editor.rs:142-152 | for any two opposite corners, exactly the pixels a brush reaches from some point of the outline get the mark colour |
| `Mosaic.BlockStart` | apps/desktop/src/image_editor.rs:229-267 | every coordinate of the selection lies in the block that starts at or before it |
| `Mosaic.BlockIndex` | apps/desktop/src/image_editor.rs:229-267 | blocks start at whole multiples of the block size from the corner of the selection |
| `Mosaic.BlocksPartition` | apps/desktop/src/image_editor.rs:229-267 | two blocks are equal or disjoint |
| `Mosaic.SampleRow` | apps/desktop/src/image_editor.rs:238-244 | a row adds its channel sums and its width to the running totals, within `u32` |
| `Mosaic.SampleBlock` | apps/desktop/src/image_editor.rs:235-252 | the sampled colour is the per-channel floor mean of the block as it was before any write |
| `Mosaic.FillBlock` | apps/desktop/src/image_editor.rs:253-257 | exactly the block's pixels take the colour |
| `Mosaic.PixelateBlock` | apps/desktop/src/image_editor.rs:233-258 | one pass of the block loops averages one more block of the original picture |
| `Mosaic.ApplyMosaic` | apps/desktop/src/image_editor.rs:219-269 | in place: every selected pixel becomes the floor mean of the original pixels of its block, all others stay; nothing happens for a selection less than two pixels wide or high |
| `MosaicLaws.MosaicIdempotent` | apps/desktop/src/image_editor.rs:219-269 | pixelating the same selection again changes nothing |
| `MosaicLaws.MosaicTotals` | apps/desktop/src/image_editor.rs:227-268 | each channel's total over the image never grows and drops by less than the number of selected pixels |
| `MosaicLaws.MosaicPixel` | apps/desktop/src/image_editor.rs:219-269 | for every pixel: the channel sum over its block, cut off at the selection's edge, divided by the block's area, or its old value outside the selection; blocks are placed by remainder from the corner |
| `Mosaic.BlockSize` | apps/desktop/src/image_editor.rs:227-228 | 3, 4 or 5, changing where the shorter side of the image reaches 16 and 24 |
| `Crop.CropPixels` | apps/desktop/src/image_editor.rs:271-280 | when a crop succeeds, its size, and where each of its pixels comes from |
| `Crop.CornersSwap` | apps/desktop/src/image_editor.rs:272-275 | swapping the corners in one or both coordinates gives the same crop |
| `Crop.CropOfCrop` | apps/desktop/src/image_editor.rs:271-280 | cropping a crop is one crop of the original at the translated corners, failures included |
| `SvgText.EscapeIsSubstitution` | apps/desktop/src/image_editor.rs:377-383 | the five passes equal one substitution per character |
| `SvgText.EscapedIsText` | apps/desktop/src/image_editor.rs:377-383 | no markup character survives and every ampersand starts a predefined entity of XML 1.0 |
| `SvgText.UnescapeEscape` | apps/desktop/src/image_editor.rs:377-383 | a one-pass reader of the five entities recovers every text |
| `EditSession.ImageEditSession.constructor` | apps/desktop/src/image_editor.rs:22-28 | a new session is a timeline of one image |
| `EditSession.ImageEditSession.ShowPreview` | apps/desktop/src/image_editor.rs:40-42 | a preview replaces the shown entry only |
| `EditSession.ImageEditSession.CommitImage` | apps/desktop/src/image_editor.rs:45-54 | a change is appended after the shown entry, dropping redo and at most the oldest entry; no change keeps everything |
| `EditSession.ImageEditSession.CommitGestureFrom` | apps/desktop/src/image_editor.rs:57-64 | the gesture's base enters the timeline before the shown image |
| `EditSession.ImageEditSession.UndoEdit` | apps/desktop/src/image_editor.rs:74-81 | undo moves the cursor back and reports whether it could |
| `EditSession.ImageEditSession.RedoEdit` | apps/desktop/src/image_editor.rs:83-90 | redo only moves the cursor on: it never evicts an undo entry |
| `EditSession.ImageEditSession.PushUndo` | apps/desktop/src/image_editor.rs:92-97 | the newest 64 of the old entries and the new one are kept |
| `EditSession.Run` | apps/desktop/src/image_editor.rs:45-97 | every run keeps the cursor inside at most 65 images |
| `EditSession.TimelineDetermines` | apps/desktop/src/image_editor.rs:15-19 | the timeline determines all three fields of the session |
| `EditSession.UndoRedoRestores` | apps/desktop/src/image_editor.rs:74-97 | n undos and n redos restore the whole state for every n up to the undo depth |
| `EditSession.GestureIsOneCommit` | apps/desktop/src/image_editor.rs:38-64 | any previews followed by committing the gesture equal one commit of the last preview: state and report |
| `EditSession.NoChangeKeeps` | apps/desktop/src/image_editor.rs:45-60 | committing the shown image, by either operation, changes nothing, keeps redo and reports false |
| `EditSession.NoChangeBetween` | apps/desktop/src/image_editor.rs:45-90 | n undos, a commit or gesture that changes nothing, and n redos give back the whole state for every n up to the undo depth |
| `EditSession.CommitMeans` | apps/desktop/src/image_editor.rs:45-54 | a changing commit shows its image, leaves nothing to redo, and one undo shows the image before it |
| `EditSession.GestureMeans` | apps/desktop/src/image_editor.rs:57-64 | a changing gesture keeps the shown image, leaves nothing to redo, and one undo shows its base |
| `EditSession.PreviewMeans` | apps/desktop/src/image_editor.rs:40-42 | a preview shows its image and leaves every other entry and the cursor |
| `EditSession.UndoRedoReport` | apps/desktop/src/image_editor.rs:74-90 | undo and redo report whether there is an entry to go to, and without one change nothing |
| `EditSession.CommitsKeepNewest` | apps/desktop/src/image_editor.rs:45-54 | a run of changing commits keeps exactly the newest 65 images of the past |
| `EditSession.UndosWalkThePast` | apps/desktop/src/image_editor.rs:45-97 | after such a run, n undos show the image n steps before the last |
| `WatchEvents.Absorb` | apps/desktop/src/file_watch.rs:276-303 | absorbing one more event turns the summary of a burst into the summary of the longer burst |
| `WatchEvents.SummaryAt` | apps/desktop/src/file_watch.rs:280-302 | a path is settled iff a content event names it, and as changed iff one of them is no removal |
| `WatchEvents.SummaryOfOne` | apps/desktop/src/file_watch.rs:276-303 | for every event kind: which paths a single event settles and as what; a failed event settles nothing |
| `WatchEvents.SummaryIgnoresOrder` | apps/desktop/src/file_watch.rs:276-303 | the settled batch depends only on which events occurred |
| `WatchEvents.Settled` | apps/desktop/src/file_watch.rs:265-273 | the sent vector lists every settled path once, with its kind, in path order |
| `WatchEvents.OneListing` | apps/desktop/src/file_watch.rs:265-273 | a batch has exactly one such vector |
| `Debounce.SendSettled` | apps/desktop/src/file_watch.rs:265-274 | one batch is appended unless the receiver is closed |
| `Debounce.CollectBurst` | apps/desktop/src/file_watch.rs:247-256 | the inner loop absorbs exactly the open burst, up to a silence or the sender's end |
| `Debounce.RunDebouncer` | apps/desktop/src/file_watch.rs:231-263 | over every observation of the channel the i-th batch sent is the summary of the i-th burst in path order, all of them while the receiver is open |
| `Debounce.NothingLost` | apps/desktop/src/file_watch.rs:238-260 | the bursts and the open burst are the received events, in order, none lost or duplicated, no burst empty |
| `Debounce.ClosedBurstsDelivered` | apps/desktop/src/file_watch.rs:248-259 | a silence or a disconnect delivers everything received before it, and a silence makes what follows start afresh |
| `Debounce.UnbrokenIsOneBurst` | apps/desktop/src/file_watch.rs:247-259 | events with no silence among them are one burst, sent at the next silence or disconnect and not before |
| `Debounce.EventInItsBurst` | apps/desktop/src/file_watch.rs:238-260 | over every run each received event is in the burst open when it arrived, right behind the events received in it before |
| `Debounce.SameBurstIff` | apps/desktop/src/file_watch.rs:238-260 | over every run two received events are in one burst if and only if no silence lies between them |
| `Routing.FirstKeyFound` | apps/desktop/src/file_watch.rs:94-99 | the lookup finds the first key, in key order, that declares the path |
| `Routing.OnlyFirstKeyReachable` | apps/desktop/src/file_watch.rs:94-99 | a key can be reached if and only if no earlier key declares the same path |
| `Routing.Route` | apps/desktop/src/file_watch.rs:122-131 | the loop builds the last-wins map of the batch |
| `Routing.LastWins` | apps/desktop/src/file_watch.rs:123-130 | a key is routed iff some event hits it, with the kind of the last such event |
| `Routing.StrongestIffLast` | apps/desktop/src/file_watch.rs:117-131 | for the batch at hand the strongest kind of every key is kept if and only if no key reported as changed has a removal for its last event |
| `Routing.StrongestIffDistinct` | apps/desktop/src/file_watch.rs:117-131 | it is kept for every choice of kinds on these paths if and only if no two of them lead to one key |
| `Routing.WeakerKindCanWin` | apps/desktop/src/file_watch.rs:117-131 | a batch whose key is routed as removed although a change was reported |
| `Routing.BurstReachesKeys` | apps/desktop/src/file_watch.rs:122-131 | a burst, settled and routed in any order, gives each declared key nothing, removed or changed, as its reports say |
| `Routing.RoutingIgnoresOrder` | apps/desktop/src/file_watch.rs:122-131 | permuting the burst or the batch does not change what a key gets, when its file is reported under one spelling |
| `Routing.SettledRoutingIgnoresOrder` | apps/desktop/src/file_watch.rs:122-131 | settled in path order, permuted bursts route alike whatever their spellings |
| `Registry.FileWatch.DirectoriesOf` | apps/desktop/src/file_watch.rs:86-91 | the parents of the declared files |
| `Registry.DirectoriesAreParents` | apps/desktop/src/file_watch.rs:86-91 | a directory belongs to a declaration if and only if it is the parent of a declared file |
| `Registry.FileWatch.Release` | apps/desktop/src/file_watch.rs:194-198 | unwatches each leaving directory once; only a failed unwatch leaves it registered |
| `Registry.FileWatch.Register` | apps/desktop/src/file_watch.rs:199-215 | watches each joining directory once; a refusal costs only that directory |
| `Registry.FileWatch.Reconcile` | apps/desktop/src/file_watch.rs:189-218 | an unchanged set makes no call; otherwise exactly the directories whose membership changed are touched, once each |
| `Registry.RunConsistent` | apps/desktop/src/file_watch.rs:151-218 | in every run, with any failures and vanishing directories: the directories are the parents of the targets, registrations lie within them or an unwatch failed, and watch and unwatch alternate per directory |
| `Registry.NothingOutlives` | apps/desktop/src/file_watch.rs:184-198 | when no unwatch fails on a live registration, none outlives the last target of its directory |
| `Registry.RegistrationsExact` | apps/desktop/src/file_watch.rs:189-218 | when nothing is refused, stuck or vanishes, the registrations are exactly the parents |
| `Registry.DeclaredFilesWatched` | apps/desktop/src/file_watch.rs:189-218 | after every such run the parent of every declared file is registered |
| `Registry.ReconcileDeclares` | apps/desktop/src/file_watch.rs:190-217 | after a reconcile, the early return included, the watch declares the targets it was given |
| `Textures.BrowserSurface.SetOrphanTextures` | apps/desktop/src/browser_surface.rs:3607-3609 | the surface gets the queue and its images stay |
| `Textures.BrowserSurface.AcceptFrame` | apps/desktop/src/browser_surface.rs:882-888 | the new frame is shown and the old one parked |
| `Textures.BrowserSurface.ReplaceFavicon` | apps/desktop/src/browser_surface.rs:486-492 | the new icon is shown and the old one parked |
| `Textures.BrowserSurface.ParkFrame` | apps/desktop/src/browser_surface.rs:700-702 | a tab change parks the frame |
| `Textures.BrowserSurface.Paint` | apps/desktop/src/browser_surface.rs:3636-3641 | everything parked is released and the surface holds at most two images |
| `Textures.BrowserSurface.RetireTextures` | apps/desktop/src/browser_surface.rs:3615-3632 | everything owned goes to the queue, or stays parked without one |
| `Textures.OrphanQueue.Drain` | apps/desktop/src/code_workbench.rs:12701-12704 | the workbench paint releases the whole queue |
| `Textures.SurfaceConserves` | apps/desktop/src/browser_surface.rs:486-492 | no operation of a surface loses or duplicates an image |
| `Textures.RunConserves` | apps/desktop/src/browser_surface.rs:176-190 | over every interleaving, retired surfaces that live on included, each minted image is in exactly one place |
| `Textures.ReleasedOnce` | apps/desktop/src/browser_surface.rs:3636-3641 | no image is released twice, nor while it is shown, parked or queued |
| `Textures.AtlasBounded` | apps/desktop/src/browser_surface.rs:3611-3641 | with the queue attached, once all is painted the atlas holds at most two images per open surface |
| `Textures.ClosedEmptyIff` | apps/desktop/src/browser_surface.rs:3611-3632 | from every state and whatever follows, a closed surface holds nothing if and only if it had the queue or was empty when closed |
| `Textures.WithoutQueueLeaks` | apps/desktop/src/browser_surface.rs:3628-3630 | a run that closes a surface without the queue and leaves its image held and unreleased |
| `TextureLaws.FrameMeans` | apps/desktop/src/browser_surface.rs:882-888 | the surface shows the image just minted, the old frame is parked last, the favicon and all else stay |
| `TextureLaws.FaviconMeans` | apps/desktop/src/browser_surface.rs:486-492 | the same for the favicon, with the frame kept |
| `TextureLaws.ChangeTabMeans` | apps/desktop/src/browser_surface.rs:700-702 | no frame is shown, the old one is parked last, the favicon stays |
| `TextureLaws.PaintMeans` | apps/desktop/src/browser_surface.rs:3636-3641 | exactly the parked images are released, in order, and frame and favicon stay; the workbench releases exactly the queue |
| `TextureLaws.RetireMeans` | apps/desktop/src/browser_surface.rs:3615-3632 | nothing is shown any more; exactly what was shown or parked is in the queue, or parked without one |
| `TextureLaws.LatestFrameShown` | apps/desktop/src/browser_surface.rs:882-888 | in every run a surface shows the image of its latest frame, or none since a later tab change or retirement |
| `TextureLaws.LatestFaviconShown` | apps/desktop/src/browser_surface.rs:486-492 | in every run a surface shows the image of its latest favicon, or none since a later retirement |
| `TextureLaws.PaintingSettles` | apps/desktop/src/browser_surface.rs:3636-3641 | after any run with the queue attached, painting each surface and the workbench once leaves at most two images per open surface |
| `Downloads.DownloadPanel.ShowDownload` | apps/desktop/src/browser_surface.rs:1705-1728 | a foreign tab's download is ignored; a known guid updates its row, a new one goes last, four rows stay, and the timer is rescheduled |
| `Downloads.DownloadPanel.ScheduleHide` | apps/desktop/src/browser_surface.rs:1735-1746 | the timer is armed iff there are rows and none is in progress |
| `Downloads.DownloadPanel.HideTimerFires` | apps/desktop/src/browser_surface.rs:1748-1756 | only rows in progress stay |
| `Downloads.DownloadPanel.ChangeTab` | apps/desktop/src/browser_surface.rs:693-718 | another tab clears the card and its timer |
| `Downloads.DownloadPanel.AttachTab` | apps/desktop/src/browser_surface.rs:389-401 | another tab is attached and the card stays |
| `Downloads.DownloadPanel.DismissCard` | apps/desktop/src/browser_surface.rs:1834-1838 | dismissing clears the card and its timer |
| `Downloads.ShownRows` | apps/desktop/src/browser_surface.rs:1714-1725 | rows stay distinct and at most four, the shown download is among them, no other row changes, and only the oldest can be pushed out |
| `Downloads.FiringEmpties` | apps/desktop/src/browser_surface.rs:1746-1757 | a firing timer empties the card |
| `Downloads.StepTabIff` | apps/desktop/src/browser_surface.rs:396-401 | a step keeps all rows of the current tab if and only if it is no attach of rows to another tab |
| `Downloads.RunSound` | apps/desktop/src/browser_surface.rs:1705-1758 | over every run: distinct guids, at most four rows, timer armed exactly when all shown downloads ended, each row the latest announcement; all its states show rows of the current tab only, if and only if attaches are clean |
| `Downloads.AlwaysIffClean` | apps/desktop/src/browser_surface.rs:389-410 | from any sound state of one tab, every later state shows that property if and only if the attaches are clean |
| `Downloads.AttachKeepsForeignRow` | apps/desktop/src/browser_surface.rs:389-410 | a run after which a row of another tab is shown |
| `Downloads.ShowMeans` | apps/desktop/src/browser_surface.rs:1705-1728 | a download of this tab is shown at once and every other row stays in its place; a new one goes last, and only then does a full card lose its oldest row |
| `Downloads.OthersMean` | apps/desktop/src/browser_surface.rs:389-410 | which rows each of the other operations keeps, and the tab it leaves |
| `Downloads.StaysShown` | apps/desktop/src/browser_surface.rs:1714-1725 | over every run a shown download stays until a dismissal, another tab, a firing timer or four newer downloads, at the place the newer ones leave it |
| `Downloads.ShownIff` | apps/desktop/src/browser_surface.rs:1714-1725 | over a run that clears nothing and does not announce it again it is still shown if and only if fewer than four downloads are newer |
| `Listing.ListEntries` | apps/desktop/src/directory_picker.rs:1430-1469 | the rows are the sorted visible entries |
| `Listing.SortedKeeps` | apps/desktop/src/directory_picker.rs:1461-1467 | sorting orders by folder, lower-cased name and name, and keeps every row |
| `Listing.ListingShows` | apps/desktop/src/directory_picker.rs:1426-1469 | exactly the readable entries that are not hidden, files only when asked for, folders first, in order |
| `Listing.ListedIff` | apps/desktop/src/directory_picker.rs:1430-1469 | a row is listed if and only if a readable entry has its name and path, it is a folder exactly for a directory or a link to one, it is a folder or files are asked for, and its name is not hidden |
| `Listing.RowsByName` | apps/desktop/src/directory_picker.rs:1461-1467 | of two rows the earlier is a folder if the later is; within one kind names ascend lower-cased, and as they are where that ties |
| `Listing.StringLeMeans` | apps/desktop/src/directory_picker.rs:1465-1466 | the comparison of names is lexicographic: a common prefix, then the end of the first or a smaller character |
| `Listing.BrokenLinkListed` | apps/desktop/src/directory_picker.rs:1430-1469 | a broken link is missing from the listing if and only if files are not asked for or its name is hidden, and otherwise listed as a file |
| `Picker.DirectoryPickerDialog.Browse` | apps/desktop/src/directory_picker.rs:470-485 | a browse clears the rows and replaces the pending one |
| `Picker.DirectoryPickerDialog.BrowseAnswered` | apps/desktop/src/directory_picker.rs:486-518 | the answer to the current browse sets root, selection, parent and rows together, or the error; a replaced browse changes nothing |
| `Picker.DirectoryPickerDialog.ListSource` | apps/desktop/src/directory_picker.rs:112-151 | a local or an authority listing, from the source's answer |
| `Picker.DirectoryPickerDialog.Confirm` | apps/desktop/src/directory_picker.rs:666-678 | only a ready dialog with a selection submits, and a file picker only a file |
| `Picker.DirectoryPickerDialog.ActivateFocusedRow` | apps/desktop/src/directory_picker.rs:586-598 | a folder row is browsed, a file row confirmed, and without a row the query is followed |
| `Picker.DirectoryPickerDialog.ClickRow` | apps/desktop/src/directory_picker.rs:1158-1179 | a folder row is browsed, a file row selected, and taken on a double click |
| `Picker.DirectoryPickerDialog.OpenQueryPath` | apps/desktop/src/directory_picker.rs:554-582 | a typed path is browsed, or confirmed when it is a file and files are picked |
| `Picker.DirectoryPickerDialog.GoUp` | apps/desktop/src/directory_picker.rs:600-604 | browses the parent the source reported, if any |
| `Picker.EveryRunFaithful` | apps/desktop/src/directory_picker.rs:470-521 | in every reachable state a ready dialog shows one listing, the answer to the latest browse; a folder picker has that root selected, and every path it ever submitted was the root shown |
| `Picker.LocalPickWasAsked` | apps/desktop/src/directory_picker.rs:666-678 | a local folder picker only submits the directory its latest browse asked for |
| `PickerLaws.FolderConfirmed` | apps/desktop/src/directory_picker.rs:666-678 | in every faithful state, so in every reachable one, a confirm in a folder picker submits the root shown, the answer to the latest browse, if it is ready, and otherwise nothing |
| `PickerLaws.FileConfirmed` | apps/desktop/src/directory_picker.rs:666-678 | a file picker submits its selection if and only if it is ready and the selection is a file |
| `PickerLaws.FileRowTaken` | apps/desktop/src/directory_picker.rs:1158-1179 | a click selects a file row; a double click or Enter submits its path if and only if it is a file |
| `PickerLaws.QueryFileTaken` | apps/desktop/src/directory_picker.rs:554-582 | a typed file is submitted if and only if files are picked and the dialog is ready |
| `PickerLaws.BrowseAsks` | apps/desktop/src/directory_picker.rs:470-485 | a browse asks the source for its target, locally for home or the root without one, shows no rows and waits |
| `PickerLaws.FolderRowAsks` | apps/desktop/src/directory_picker.rs:586-598 | a folder row, by click or Enter, asks for that folder |
| `PickerLaws.UpAsks` | apps/desktop/src/directory_picker.rs:600-604 | going up asks for the parent reported, and does nothing without one |
| `PickerLaws.QueryAsks` | apps/desktop/src/directory_picker.rs:554-582 | a typed directory, or any path of an authority, is asked for; Enter without a row does the same |
| `PickerLaws.LocalAnswerShown` | apps/desktop/src/directory_picker.rs:486-507 | a local directory that answers is shown: path, parent, selection and exactly its sorted listing |
| `PickerLaws.RemoteAnswerShown` | apps/desktop/src/directory_picker.rs:127-151 | an authority's listing is shown as it came, as folders, and its roots replace the known ones if it names any |
| `PickerLaws.FailureRetried` | apps/desktop/src/directory_picker.rs:508-516 | a failure is shown; a retry asks again for the same directory, or an authority without known roots for its first |
| `PickerLaws.StaleAnswerIgnored` | apps/desktop/src/directory_picker.rs:479-489 | an answer to any browse but the latest, or a second one, changes nothing |
| `PickerLaws.BrowsedThenPicked` | apps/desktop/src/directory_picker.rs:470-521 | browsing a local directory in any faithful, so any reachable, state and confirming its answer submits that directory, and a double click the file of its listing, whatever answers of other browses come in between |
| `MountPath.TakeDigits` | apps/desktop/src/directory_picker.rs:1585-1587 | three characters are consumed, octal or not |
| `MountPath.DecodeMountPath` | apps/desktop/src/directory_picker.rs:1577-1596 | the loop computes the decoded text |
| `MountPath.DecodeEncode` | apps/desktop/src/directory_picker.rs:1574-1596 | decoding undoes every encoder that escapes the backslash and any other characters below 512 |
| `MountPath.UndoneIffBackslashEscaped` | apps/desktop/src/directory_picker.rs:1574-1596 | an encoder is undone on every text if and only if it escapes the backslash |
| `MountPath.FixedIff` | apps/desktop/src/directory_picker.rs:1580-1594 | a text decodes to itself if and only if no backslash is followed by anything |
| `MountPath.MalformedSwallows` | apps/desktop/src/directory_picker.rs:1585-1593 | a backslash without three octal digits behind it stays and takes the next three characters, or what is left, with it |

## Left out

- StrokeIsDiscsIff: asks that the line and its brush together span less than 2^32; StrokeExactIff has no such bound, with a condition on pixels instead of brushes.
- RunDebouncer: observes a finite stretch of the channel; the length of the window and real time are not modelled.
- AtlasBounded: counts a surface that is retired but still alive as open; closing retires and drops it at once.
- EveryRunFaithful: a replaced browse task is taken to be cancelled, so its answer never arrives.
- ListEntries: sorts by insertion; the original calls the library's stable sort with the same comparison, which differs only on rows the comparison cannot tell apart.
- WatchTargets: the declared files are given in key order with distinct keys; collecting them from pairs is not modelled.
- Normalization and order of paths, parents, lower-casing and what the file system answers are parameters.
- `apply_circle`, `apply_arrow`, text rasterization and the fallback glyphs: floating-point trigonometry, an SVG library and a table.
- The row filter and keyboard highlight of the picker (a row is any row of the listing), its favourites, breadcrumbs and drive detection.
- Frame pump retries, viewport debounce, URL parsing, key tables and pointer scaling of the browser panel.
- Rendering, layout, themes, locale text and process wiring.

# Display-list viewer: a verified model of its core

The viewer plays back a *display list*: an ordered sequence of frames,
each a list of drawable primitives (points, lines, spheres, cones,
rectangles, text, cylinders, polygon meshes, line segments and point
clouds), optionally tagged with a group so that whole groups can be shown
or hidden. This project models the logic behind the viewer, apart from
rendering, and proves properties of it:

- `schema.dfy` (module `Schema`): the display-list types, the manifest
  types and the demo display list.
- `viewer.dfy` (module `SceneViewer`): the primitive builder, reduced to
  which object it builds and how it tags it. Also frame groups, the
  effective group list, the recursive visibility walk, and the `Viewer`
  class holding the frame groups, the current index, the attached group
  and the group-visibility record.
- `string_order.dfy` (module `StringOrder`): the default order of
  `Array.prototype.sort` on strings, and sorting a set of tags.
- `playback.dfy` (module `Playback`): the per-display-list controller.
  This is the `Session` class: play and pause, timed steps under the wrap,
  ping-pong and stop loop modes, step, jump and slider, the annotation
  overlay, the text toggle and the group toggles.
- `loader.dfy` (module `Loader`): the two type guards over parsed JSON,
  the frame fetch, manifest resolution and the choice between the
  document, an assembled list or an error.
- `public_list.dfy` (module `PublicList`): the `/public-list` development
  endpoint. It normalises the path, gates it to the public directory,
  shapes and sorts the entries and derives the parent.
- `wrappers.dfy` (module `Wrappers`): `Option` and `Result`.

The scene graph is a value here. A three.js object is a `Node` holding its
user data, its material colour (none for a plain group or a text sprite),
its `visible` flag and its children. The
in-place flag updates of the visibility walk become a function that
returns the updated tree, and the viewer stores the new trees.

Time, parsed widget values, `fetch`, `JSON.parse`, URL resolution, the
file system, `path` helpers and `localeCompare` are parameters. The
network and the file system are oracles given as Dafny functions.

In these places the code does something other than one might expect, and
the model follows the code:

- The jump button clamps an out-of-range index onto the nearest frame
  (src/main.ts:319-324 through src/main.ts:226-227). It does not leave the
  frame unchanged. Only the viewer's own `setFrame` ignores such an index.
- A zero-length cylinder builds nothing, so nothing is added to its frame
  group (three.js logs a console error for the `null` it is handed).
- `polygonMesh`, `lineSegments` and `pointCloud` have no case in the
  builder, so they build no object and add no child.
- A display list with no frames is handled: the viewer's index becomes -1
  and nothing is attached.
- `dispose` is not idempotent (src/viewer.ts:439).
- `direction` is set to +1 by `startPlayback` and by a ping-pong turn at
  the first frame, and to -1 by a ping-pong turn at the last frame
  (src/main.ts:264-271). Wrap and stop never change it, so if the loop
  mode is switched from ping-pong to wrap while moving backwards, wrap
  keeps stepping backwards.

## Model

| member | source | states |
|---|---|---|
| Schema.Channels | src/display-list.ts:4 | a colour has exactly three or four channels, four exactly for RGBA, and the first three are r, g, b |
| Schema.KindIdentifiesVariant | src/display-list.ts:6-99 | the ten `kind` literals are pairwise distinct, so the literal identifies the variant |
| Schema.DemoShape | src/display-list.ts:122-225 | the demo has two frames of 9 and 2 primitives and the three explicit groups `points`, `lines`, `spheres` |
| Schema.DemoExtraTags | src/display-list.ts:122-205 | the demo's cone, text and rect carry the tags `cones`, `labels`, `rects`, none of which is an explicit group id |
| SceneViewer.ToThreeColor | src/viewer.ts:107-111 | no colour gives white; otherwise the colour's first three channels, alpha dropped |
| SceneViewer.BuildPrimitiveObject | src/viewer.ts:113-227 | nothing is built exactly for a cylinder whose start equals its end and for the three kinds without a case; every built object is visible and childless; its material colour is `ToThreeColor` of the primitive's colour, except for a text sprite, whose material has no colour; non-cones are tagged only for a truthy group; a cone always copies its group and is marked `isCone` with its tip |
| SceneViewer.BuildFrameGroup | src/viewer.ts:229-236 | the loop yields the untagged, visible group whose children are `Built(primitives)`: one `add` per primitive, in order |
| SceneViewer.BuiltAppend | src/viewer.ts:231-234 | building a concatenation appends the children of the second part after those of the first |
| SceneViewer.BuiltAllRenderable | src/viewer.ts:231-234 | when every primitive builds, there is exactly one child per primitive and the i-th child comes from the i-th primitive |
| SceneViewer.BuiltFromPrimitives | src/viewer.ts:231-234 | there are never more children than primitives, and each child was built from one of the primitives |
| SceneViewer.FrameGroupAllVisible | src/viewer.ts:229-236 | a freshly built frame group is visible at every node |
| SceneViewer.ApplyGroupVisibility | src/viewer.ts:253-264 | the recursive walk returns `Applied(n, vis)`, the tree with each tagged node's flag set from the map |
| SceneViewer.AppliedFollows | src/viewer.ts:257-260 | after the walk, every tagged node at any depth is visible exactly when its group is not mapped to false, so unknown groups are visible |
| SceneViewer.AppliedKeepsShape | src/viewer.ts:253-264 | the walk changes no tag, material or child; it changes only flags |
| SceneViewer.AppliedKeepsUntagged | src/viewer.ts:258-260 | the walk leaves every untagged node's flag as it was |
| SceneViewer.FollowingIsFixed | src/viewer.ts:253-264 | a tree whose flags already follow the map is unchanged by the walk |
| SceneViewer.AppliedIdempotent | src/viewer.ts:253-264 | applying the same map twice gives the same tree as applying it once |
| SceneViewer.AllVisibleFollows | src/viewer.ts:327-329 | a tree visible everywhere already follows a map that switches no group off |
| SceneViewer.PrimitiveTagsMembership | src/viewer.ts:244-246 | a string is collected from a frame exactly when it is non-empty and some primitive's group equals it |
| SceneViewer.FrameTagsMembership | src/viewer.ts:243-247 | a string is collected from the frames exactly when it is a truthy tag of some primitive of some frame |
| SceneViewer.CollectGroupDefs | src/viewer.ts:238-251 | explicit non-empty groups are returned unchanged; otherwise one `{id, id}` per distinct truthy tag, strictly ascending, so with no duplicates |
| SceneViewer.GroupDefsDetermined | src/viewer.ts:238-251 | the collected group list is uniquely determined by the display list |
| SceneViewer.AllGroupsVisible | src/viewer.ts:328-329 | the visibility record has exactly the group ids as keys, all true |
| SceneViewer.InitialIndex | src/viewer.ts:342-345 | the starting index is -1 without frames, otherwise in range and equal to the requested frame when that is valid |
| SceneViewer.Viewer.constructor | src/viewer.ts:327-359 | the viewer starts with the collected groups all visible, one freshly built group per frame, the clamped index, and that frame's group attached |
| SceneViewer.Viewer.AttachFrame | src/viewer.ts:348-357 | the indexed group becomes the attached one, its flags reapplied from the record; nothing else changes |
| SceneViewer.Viewer.SetFrame | src/viewer.ts:405-409 | an index outside the frames is ignored; otherwise it becomes current and its group is attached |
| SceneViewer.Viewer.SetGroupVisibility | src/viewer.ts:411-416 | the record gets the new flag and every frame group, attached or not, is the walk over its old tree; index and attachment are kept |
| SceneViewer.Viewer.GetGroups | src/viewer.ts:418-420 | the groups returned are the ones collected for the display list |
| SceneViewer.Viewer.GetFrameCount | src/viewer.ts:426-428 | the frame count equals the number of frames of the display list |
| StringOrder.LessIrreflexive | src/viewer.ts:249 | no string sorts before itself |
| StringOrder.LessTransitive | src/viewer.ts:249 | the default sort order is transitive |
| StringOrder.LessTotal | src/viewer.ts:249 | of two different strings, one sorts before the other |
| StringOrder.LeastExists | src/viewer.ts:249 | every non-empty set of strings has a least element |
| StringOrder.SortSet | src/viewer.ts:248-249 | the sorted array is strictly ascending and holds exactly the set's elements |
| StringOrder.SortedUnique | src/viewer.ts:248-249 | two strictly ascending sequences with the same elements are equal |
| Playback.GetFps | src/main.ts:191-194 | the speed is the parsed value when it is a positive integer, 30 otherwise, and always positive |
| Playback.GetLoopMode | src/main.ts:200-204 | `pingpong` and `stop` select those modes; every other value selects wrap |
| Playback.ClampFrame | src/main.ts:206-211 | 0 without frames; otherwise a valid index, the identity on valid ones and the nearest valid index to any other |
| Playback.ResolveStep | src/main.ts:258-283 | a step halts exactly in stop mode when `current + direction` leaves the frames, on the last frame past the end and on frame 0 before the start; an in-range next index is taken with the direction kept; only ping-pong changes the direction |
| Playback.WrapStep | src/main.ts:261-263 | wrap never stops or turns: past the end lands on 0, before the start on the last frame |
| Playback.PingPongStep | src/main.ts:264-271 | ping-pong turns at the ends: past the end direction -1 onto `count-2` (0 for one frame), before the start direction +1 onto 1 (0 for one frame) |
| Playback.StopStep | src/main.ts:272-282 | stop mode halts on the last frame past the end and on frame 0 before the start, and advances otherwise |
| Playback.StepStaysInRange | src/main.ts:258-283 | from a valid frame with direction +1 or -1, every mode lands on a valid frame with direction +1 or -1 |
| Playback.ThreeFrameExamples | src/main.ts:258-283 | with three frames at frame 2 going forwards, wrap goes to 0, ping-pong turns onto 1, stop halts on 2 |
| Playback.DueWithoutDivision | src/main.ts:256-257 | a step is due exactly when elapsed time times fps reaches 1000 |
| Playback.TrimEmptyIffBlank | src/main.ts:217 | a trimmed annotation is empty exactly when all its characters are white space |
| Playback.Overlay | src/main.ts:213-224 | an overlay is shown only while text is on, is then the current frame's annotation, and never trims to the empty string |
| Playback.OverlayShownIff | src/main.ts:213-224 | the overlay shows the current frame's annotation exactly when text is on and the annotation has a non-blank character |
| Playback.Session.constructor | src/main.ts:55-107 | a new session has a fresh viewer, all groups visible, text on, paused with direction +1, and frame 0 applied |
| Playback.Session.RefreshFrameText | src/main.ts:213-224 | the overlay becomes the overlay decision for the current frame; nothing else changes |
| Playback.Session.ApplyFrame | src/main.ts:226-236 | the current frame becomes the clamped index, the viewer shows it, the overlay is refreshed and playback state is kept |
| Playback.Session.StopPlayback | src/main.ts:238-245 | not playing and no step pending; frame, direction and timing kept |
| Playback.Session.StartPlayback | src/main.ts:247-252 | a no-op without frames; otherwise playing forwards from `now` with a step pending |
| Playback.Session.PressPlay | src/main.ts:301-307 | pauses when playing, otherwise starts; on a pause, or a start without frames, direction and timing are kept; frame, overlay, text flag and group record are always kept |
| Playback.Session.AdvanceTo | src/main.ts:264-286 | a step that goes on takes the resolved direction, shows the clamped next frame and restarts the timing at `time`, leaving visibility and text state alone |
| Playback.Session.HaltOn | src/main.ts:273-282 | stop mode at an end shows the boundary frame and stops playback, leaving direction and timing as they were |
| Playback.Session.Tick | src/main.ts:254-289 | nothing happens when not playing; before the frame duration the tick only reschedules; otherwise the loop mode's outcome is applied, timing restarts at `time`, and stop mode ends playback on a boundary frame without touching the timing |
| Playback.Session.StepBack | src/main.ts:309-312 | stops playback, then applies the clamped previous frame; direction, timing, text flag, group record and frame groups are kept |
| Playback.Session.StepForward | src/main.ts:314-317 | stops playback, then applies the clamped next frame; direction, timing, text flag, group record and frame groups are kept |
| Playback.Session.Jump | src/main.ts:319-324 | a non-finite input changes nothing; any other stops playback and applies the clamped index; direction, timing, text flag, group record and frame groups are kept |
| Playback.Session.Slide | src/main.ts:296-299 | applies the clamped parsed index, or 0, without stopping playback; the pending step, direction, timing, text flag, group record and frame groups are kept |
| Playback.Session.ToggleText | src/main.ts:326-336 | text visibility flips and the overlay follows it; frame, playback, pending step, direction, timing and group record are kept |
| Playback.Session.ToggleGroup | src/main.ts:84-94 | the group's flag flips in the session record, the viewer's record is the same map, and every frame group is re-walked; frame, playback, text flag, direction and timing are kept |
| Loader.FirstFrame | src/loader.ts:19-24 | the guards' common prefix raises a `TypeError` exactly when `frames` is a non-empty array starting with `null`, and otherwise yields that first element when there is one |
| Loader.IsDisplayList | src/loader.ts:19-26 | true exactly when `frames` is a non-empty array whose first element is an object with an array `primitives` |
| Loader.IsManifest | src/loader.ts:10-17 | true exactly when `frames` is a non-empty array whose first element has a string `file` |
| Loader.GuardsInspectOnlyFirst | src/loader.ts:10-26 | documents with the same first frame get the same answers from both guards, whatever the later frames |
| Loader.FetchFrame | src/loader.ts:30-40 | a frame is accepted exactly when the response is ok, parses, and has an array `primitives`; a non-ok response fails with its status |
| Loader.FetchAll | src/loader.ts:61-66 | a successful resolution has exactly as many frames as the manifest has entries |
| Loader.FetchAllOnePerEntry | src/loader.ts:61-66 | a successful resolution has one frame per entry, in entry order, each fetched for its entry |
| Loader.FetchAllFailsAtFirst | src/loader.ts:62-66 | resolution fails exactly when some entry fails, and then with the first failing entry's error |
| Loader.FetchAllPropagates | src/loader.ts:62-66 | a failure among the first entries is the failure of the whole resolution |
| Loader.ResolveManifest | src/loader.ts:61-66 | the push loop computes `FetchAll` over the entries |
| Loader.LoadUrl | src/loader.ts:47-74 | a network failure rejects; success needs an ok, parsed response; a returned document is that response body and passes `isDisplayList`; an assembled list comes from a body that fails `isDisplayList`, passes `isManifest`, and gives its `groups` and one frame per entry |
| Loader.LoadFromUrl | src/loader.ts:47-74 | the URL loader computes `LoadUrl`, the decision between document, manifest assembly and error |
| Loader.LoadFile | src/loader.ts:79-94 | an unparsable file fails; a file load succeeds exactly on documents passing `isDisplayList`, and then returns the document itself |
| Loader.DisplayListWins | src/loader.ts:54-58 | a document passing `isDisplayList` is returned as it is by both loaders, even if it also passes `isManifest` |
| Loader.FileAcceptsOnlyDisplayLists | src/loader.ts:79-94 | a file load succeeds exactly on display lists, and a manifest is refused |
| Loader.NeitherIsRefused | src/loader.ts:73 | a document passing neither guard is refused by both loaders |
| Loader.ManifestAssembly | src/loader.ts:58-71 | a manifest yields one frame per entry in order, with the manifest's `groups`, and fails exactly when some entry's fetch fails |
| Loader.NotOkAborts | src/loader.ts:48-51 | a non-ok response for the document aborts with its status |
| Loader.NullFirstFrameRaises | src/loader.ts:10-26 | any document whose `frames` is an array with `null` first makes both loaders fail with a `TypeError` after any ok response |
| PublicList.NormaliseRelPath | vite.config.ts:22-25 | the path defaults to `/`, always starts with `/`, and is the parameter with at most a `/` prepended |
| PublicList.NormaliseIdempotent | vite.config.ts:22-25 | normalising a normalised path changes nothing |
| PublicList.WithinDirIff | vite.config.ts:28-29 | lying within the public directory is the string-prefix test plus a separator or the end right after the prefix |
| PublicList.StartsWithAdmitsSibling | vite.config.ts:29 | the plain prefix test admits a sibling directory whose name extends the public directory's |
| PublicList.ShapeEntry | vite.config.ts:47-62 | a directory gets `/` after its name and a path ending in `/`; a file keeps its name and the joined path |
| PublicList.ShapeEntries | vite.config.ts:46-63 | one entry per directory entry, in order |
| PublicList.CompareEntries | vite.config.ts:65-67 | a directory sorts before a file, a file after a directory, and two entries of one type by `localeCompare` of their names |
| PublicList.Insert | vite.config.ts:65-68 | insertion adds exactly the one entry |
| PublicList.SortEntries | vite.config.ts:65-68 | the sorted listing is a permutation of the entries |
| PublicList.InsertDirsFirst | vite.config.ts:66 | insertion keeps directories before files |
| PublicList.SortedDirsFirst | vite.config.ts:64-68 | after sorting every directory precedes every file, whatever `localeCompare` answers |
| PublicList.PrependSorted | vite.config.ts:65-68 | an entry ordered before the head of a sorted listing keeps it sorted when put in front |
| PublicList.InsertMember | vite.config.ts:65-68 | every element of an insertion into a listing is the inserted entry or an element of the listing |
| PublicList.InsertSorted | vite.config.ts:65-68 | insertion into a sorted listing keeps it sorted by the comparator |
| PublicList.InOrderTotal | vite.config.ts:65-68 | with a consistent `localeCompare`, any two entries can be ordered by the comparator |
| PublicList.InOrderTransitive | vite.config.ts:65-68 | with a consistent `localeCompare`, comparator order is transitive |
| PublicList.SortedByComparator | vite.config.ts:65-68 | with a consistent `localeCompare`, the listing is ordered by the comparator, and same-type names by `localeCompare` |
| PublicList.Parent | vite.config.ts:70-75 | a parent, when there is one, ends in `/` |
| PublicList.ParentNoneIff | vite.config.ts:70-75 | for a normalised path there is no parent exactly for `/` and `//` |
| PublicList.Respond | vite.config.ts:18-84 | a request without URL goes to the next handler and nothing else does; a listing names a normalised `cwd` that passes the gate and is a directory; every refusal is a 400 or the 500 "Internal error" |
| PublicList.RespondInvalidBeforeFilesystem | vite.config.ts:28-34 | under any gate, a path failing it gets 400 "Invalid path" whatever the file system says |
| PublicList.RespondNotADirectory | vite.config.ts:36-44 | under any gate, a gated path that is missing or not a directory gets 400 "Not a directory", and one that cannot be read gets 500 "Internal error" |
| PublicList.RespondListingShape | vite.config.ts:44-78 | under any gate, a listing has the normalised request path as `cwd`, a parent ending in `/`, directories first, and directory names and paths ending in `/` |
| PublicList.ListPublicAsWritten | vite.config.ts:18-84 | the middleware as written: a listing is produced only for a path passing the plain prefix test |
| PublicList.AsWrittenInvalidBeforeFilesystem | vite.config.ts:28-34 | as written, a path failing the plain prefix test gets 400 "Invalid path" whatever the file system says |
| PublicList.AsWrittenNotADirectory | vite.config.ts:36-42 | as written, a path passing the prefix test that is missing or not a directory gets 400 "Not a directory" |
| PublicList.AsWrittenListingShape | vite.config.ts:18-78 | as written, every listing has a normalised `cwd` naming an existing directory that passes the prefix test, a parent ending in `/`, directories first, and directory names and paths ending in `/` |
| PublicList.ListPublic | vite.config.ts:18-84 | the corrected middleware: a listing is produced only for a path within the public directory |
| PublicList.AsWrittenListsSibling | vite.config.ts:28-34 | as written, any non-empty request that resolves to a directory which shares the public directory's string prefix without lying under it (such as `../public-secret`), and that can be read, is listed, while the separator-aware gate refuses it with 400 `Invalid path` |
| PublicList.ListingIsWithin | vite.config.ts:18-78 | every listing has a normalised `cwd` naming an existing directory within the public directory, a parent ending in `/`, directories first, and directory names and paths ending in `/` |
| PublicList.InvalidBeforeFilesystem | vite.config.ts:28-34 | with the corrected gate, a path outside the public directory gets 400 "Invalid path" whatever the file system says |
| PublicList.NotADirectory | vite.config.ts:36-42 | with the corrected gate, a path within the public directory that is missing or not a directory gets 400 "Not a directory" |

## Left out

- Widgets and page wiring: element creation, button labels and classes,
  syncing the slider, label and jump input, the IO controls, the
  background colour, drag and drop and `bootstrap` (src/main.ts:10-183,
  341-496). Widget values enter as parameters: the parsed speed, the loop
  value, the parsed jump and slider values.
- Scheduling: `requestAnimationFrame`, `cancelAnimationFrame` and
  `performance.now`. The pending callback is the flag `pending`, the
  callback is `Session.Tick(time, ...)`, and the start time is the `now`
  parameter of `StartPlayback`.
- Playback.Session.Tick: the loop-mode branching is taken from
  `ResolveStep`, a function that follows the source's branches in order.
  The method does not spell the branches out again.
- A new display list does not stop the previous session's playback
  (src/main.ts:39-52). The model covers one session at a time.
- three.js and floating point: renderer, camera, lights, controls,
  resizing, geometry and material construction, cone orientation and
  scale, rect centring, text sprites and the render loop. A built object
  keeps only its tags, its material colour, its flag and its children.
- SceneViewer.BuildPrimitiveObject: a text sprite's colour is not
  modelled. The source paints it into the canvas as a CSS `rgb(...)` with
  each channel scaled to 255 and rounded (src/viewer.ts:72-84), and the
  sprite's material has no colour; the node carries none.
- SceneViewer.Viewer.SetGroupVisibility, SceneViewer.AllGroupsVisible and
  Playback.Session.ToggleGroup: the visibility records are Dafny maps.
  The source's records are plain objects, so for the group id `__proto__`
  every assignment (src/viewer.ts:329, 412; src/main.ts:76, 87) hits the
  prototype setter and is ignored. In the source that group stays visible
  for ever and its button always computes `next = false`; the model stores
  the flag and hides the group.
- SceneViewer.BuildFrameGroup: the console error three.js logs when
  `Object3D.add` is handed the `null` of a zero-length cylinder or the
  `undefined` of a kind without a case (src/viewer.ts:233) is not
  modelled; only the fact that nothing is added is.
- SceneViewer.BuildPrimitiveObject: the zero-length test is made here on
  the endpoints. The source tests the float length of their difference,
  which can also be 0 for distinct endpoints that are extremely close.
- Cone picking in `onClick` (src/viewer.ts:372-392) and the list of cone
  objects it uses (src/viewer.ts:333-340): these rely on library ray casting.
- `dispose` (src/viewer.ts:430-440): it only releases resources.
- `setBackground` (src/viewer.ts:307, 422-424): it only sets a colour.
- StringOrder.Less: the order compares Dafny characters, which are
  Unicode scalar values. JavaScript's default sort compares UTF-16 code
  units. The two differ only between characters above U+FFFF and
  characters from U+E000 to U+FFFF.
- Loader: `fetch`, `res.json()`, `file.text()`, `JSON.parse` and URL
  resolution are oracles. A fetch is a function of its URL, so the same URL
  gives the same response. A URL that `new URL` refuses, or a file that
  cannot be read, is not modelled.
- PublicList: `path.resolve`, `path.posix.join` and `dirname`, `fs.stat`,
  `fs.readdir`, `localeCompare` and query-string parsing are oracles. A
  request URL that cannot be parsed is not modelled. Writing the
  response, its headers and the error log is left out.
- PublicList.SortEntries: the engine's sort algorithm is unknown. The
  model uses a stable insertion sort, and JavaScript requires sorting to
  be stable. Ordering by names is proved only when `localeCompare` is a
  consistent comparator. With an inconsistent one the engine's result is
  implementation-defined, so only the directories-first property is
  claimed.

## Findings

| source | as written | input that shows it | evidently intended | confidence | as-written member | corrected member |
|---|---|---|---|---|---|---|
| vite.config.ts:29 | the resolved path is admitted when it merely starts with the public directory's path as a string | public directory `/srv/app/public`, request `/public-list?path=../public-secret`: the path resolves to `/srv/app/public-secret`, passes the test, and that sibling directory is listed | admit only the public directory itself and paths below it, where the prefix is followed by `/` or ends the path | not executed; high | PublicList.AsWrittenListsSibling | PublicList.ListPublic |

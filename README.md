# fsvideo: a verified model of the widget's event ledger and lifecycle

fsvideo.js is a small browser widget. It shows a full-screen background video
or poster image and keeps it scaled to cover the window. This project models
the core of `src/fsvideo.js` in Dafny and proves properties of that model.

- **The event ledger** (`_on` / `_off`). `_on` tags an element with a
  number drawn from a module-wide counter, appends an `[event, handler,
  wrapper]` triple to the element's list and adds the wrapper as a native
  listener. `_off` walks the list from the end and splices matching triples
  out, detaching each one's wrapper. With a handler it removes only the
  newest hit and stops. Without one it removes every entry of the event, or
  every entry when no event is given.
  - `Ledger.EventLedger` is a class with the table as a `map<nat,
    seq<Entry>>`, the shared counter `IdCounter`, and ghost state: the
    element behind each tag and the multiset of native listeners per tag.
  - Its invariant `Valid` says the native listeners on every element are
    exactly those of the entries in its list. `On`, `Off` and the one-shot
    `Fire` preserve it.
  - `Off`'s loop (`Sweep`) is proved against the value-level specification
    `LedgerSpec.Deregister` / `LedgerSpec.Removed`, and the lemmas of
    `LedgerSpec` are about that specification.
- **File names** (`_getFileExt`). `FileExt` models JavaScript `split('.')`
  and proves the extension is the dot-free text after the last `'.'`.
- **Classification.** `Widget.IsPoster` applies the allow-list
  `{jpg, png, gif}` to the first source.
- **Cover fit** (`_fitToScreen`). `Geometry.FitToScreen` is computed over
  exact reals, with `.Floor` for `Math.floor`.
- **Lifecycle** (`init` / `destroy`). `Widget.FSVideo` holds
  `_initialized`, `_displayPoster`, `_element`, `_container` and the ledger.
  It models:
  - building the poster `img` or the `video` with one `<source>` per path,
    typed `"video/" + ext`;
  - the `ended` handler registered unless `options.loop === false`;
  - appending to the container and the immediate fit of a cached poster;
  - the resize listener on the window;
  - `destroy`'s backwards child-removal loop and its two `_off` calls.

Modules:
- `Wrappers` holds `Option`.
- `FileExt`, `Geometry` and `LedgerSpec` are pure.
- `Dom` holds the `Element` class for DOM nodes and the window.
- `Ledger` holds the ledger class.
- `Widget` holds the widget class.

Edge cases the model keeps as the code has them:
- `_off` on a tagged element whose list this instance does not hold throws.
  `events` is `undefined` there, and the loop reads `events.length`
  (src/fsvideo.js:60,64). The comment at src/fsvideo.js:54 speaks only of
  untagged elements, which are left alone. `_on` on such an element starts
  a list for it (`this._events[localId] || []`, src/fsvideo.js:94). `Off`
  returns `threw` for the throwing case.
- `destroy` on a widget that was already destroyed throws at `c.children`,
  because `_container` is null (src/fsvideo.js:264-265).
- `destroy` on a widget that was never initialized empties the container and
  then throws. If another instance has already tagged the window, the throw
  comes at `events.length` in `_off(window)` (src/fsvideo.js:60,64).
  Otherwise `_off(window)` returns and the throw comes at
  `_off(undefined)`, which reads a field of `undefined` (src/fsvideo.js:55,271).
- `_initialized` is never reset (src/fsvideo.js:138, 263-274), so `init`
  after `destroy` does nothing.
- A first source with no dot is its own extension, so the bare word `png`
  makes a poster (`Widget.BareWordExample`).
- `init` with an empty source list throws at `_getFileExt(undefined)`
  before it changes any state (src/fsvideo.js:119, 232).

## Model

| member | source | states |
|---|---|---|
| FileExt.Split | src/fsvideo.js:232 | `split` yields at least one piece and no piece contains the separator |
| FileExt.SplitSingle | src/fsvideo.js:232 | the split has a single piece exactly when the name holds no separator, and that piece is the whole name |
| FileExt.SplitLast | src/fsvideo.js:232-233 | the last piece is a suffix of the name, preceded by a separator whenever there are several pieces |
| FileExt.JoinSplit | src/fsvideo.js:232 | joining the pieces with the separator gives back the name (split loses nothing) |
| FileExt.GetFileExt | src/fsvideo.js:231-234 | the last piece of the split on '.', which holds no '.' (the lemmas below characterise it fully) |
| FileExt.ExtIsSuffix | src/fsvideo.js:231-234 | the extension holds no '.', ends the name, equals the name exactly when the name has no '.', and otherwise follows a '.' |
| FileExt.ExtIsAfterLastDot | src/fsvideo.js:231-234 | the extension is the text after the last '.' (the whole name when there is none), against an independent last-index definition |
| FileExt.ExtAfterDot | src/fsvideo.js:231-234 | a name ending in '.' followed by a dot-free word has that word as its extension |
| FileExt.ExtIsWord | src/fsvideo.js:231-234 | the extension is a given dot-free word exactly when the name is that word or ends in '.' and that word |
| FileExt.NestedExtExample | src/fsvideo.js:231-234 | the extension of "a.tar.gz" is "gz" |
| FileExt.NoDotExample | src/fsvideo.js:231-234 | the extension of "noext" is "noext" |
| Geometry.Max | src/fsvideo.js:247-249 | the factor is the larger of the two ratios: at least each of them and equal to one |
| Geometry.Offset | src/fsvideo.js:254-255 | the margin is 0 without overflow and otherwise floor((window - scaled) / 2): half the negative difference, rounded down, so an overflow of 1 gives -1 |
| Geometry.OddOverflowExample | src/fsvideo.js:254-255 | 1x1 in a 3x2 window gives 3x3 with top margin floor(-1 / 2) = -1 |
| Geometry.FitToScreen | src/fsvideo.js:236-261 | the scaled size covers the window in both dimensions, matches it in at least one, keeps the aspect ratio, and the margins are 0 or floor((window - scaled) / 2) < 0 by overflow |
| Geometry.CoverIsMinimal | src/fsvideo.js:247-252 | every uniform scaling that covers the window is at least as large as the fit: the larger ratio is the smallest covering factor |
| Geometry.FitExactExample | src/fsvideo.js:247-255 | 16x9 in a 32x18 window gives 32x18 with zero margins |
| Geometry.FitOverflowExample | src/fsvideo.js:247-255 | 16x9 in an 18x36 window gives 64x36 with left margin -23 |
| Dom.Element.constructor | src/fsvideo.js:182-185 | a new element is untagged and unstyled, has no children, and carries the class name, src and sources it was built with |
| LedgerSpec.Wrapper.constructor | src/fsvideo.js:98-103 | the closure captures the element, the event, the handler and the once flag |
| LedgerSpec.Matches | src/fsvideo.js:68 | an entry matches when its event is the one given or no event is given |
| LedgerSpec.Hit | src/fsvideo.js:68-69 | a match whose handler is the one given (`handlerMatches`) |
| LedgerSpec.Deregister | src/fsvideo.js:64-80 | the list `_off` leaves: without a handler every match is gone, with one only the last hit; `Sweep` is proved to compute it and the lemmas below are about it |
| LedgerSpec.Removed | src/fsvideo.js:71-72 | the entries `_off` splices out and whose wrappers it detaches: every match, or the last hit |
| LedgerSpec.LastHit | src/fsvideo.js:64-79 | the index found is a hit with no hit after it, and there is none exactly when no entry is a hit |
| LedgerSpec.NewestAt | src/fsvideo.js:64-78 | with a handler, the walk removes exactly the last hit and keeps everything else in order |
| LedgerSpec.NoHitAtAll | src/fsvideo.js:64-80 | with a handler and no hit, `_off` changes nothing and detaches nothing |
| LedgerSpec.SweptStart | src/fsvideo.js:64 | before the walk nothing has been visited or removed |
| LedgerSpec.SweptStep | src/fsvideo.js:64-79 | one iteration keeps the loop invariant: a match is spliced out (no handler), a miss is kept, a hit with a handler completes `Deregister` |
| LedgerSpec.SweptDone | src/fsvideo.js:64-80 | a walk that reaches index 0 has computed `Deregister` and `Removed` |
| LedgerSpec.KeepMembers | src/fsvideo.js:68-73 | "remove every match" keeps exactly the entries that do not match |
| LedgerSpec.DroppedMembers | src/fsvideo.js:68-73 | "remove every match" removes exactly the entries that match |
| LedgerSpec.KeepConcat | src/fsvideo.js:68-73 | removing every match works entry by entry and so preserves the order of the survivors |
| LedgerSpec.KeepAll | src/fsvideo.js:68-73 | `_off(el)` with neither event nor handler empties the list |
| LedgerSpec.KeepIdempotent | src/fsvideo.js:68-73 | removing every match twice is the same as removing it once |
| LedgerSpec.KeepCount | src/fsvideo.js:68-73 | `_off(el, ev)` leaves no `ev` entry for any handler and keeps each count of another event |
| LedgerSpec.RemoveOneCount | src/fsvideo.js:69-78 | with a handler and at least one hit, the list shrinks by one, the count of that pair drops by one and every other count stays |
| LedgerSpec.NewestHitGoes | src/fsvideo.js:64-78 | of two registrations of the same pair, the newer one is removed and the older one stays |
| LedgerSpec.DeregisterSubset | src/fsvideo.js:64-80 | everything `_off` leaves was in the list before |
| LedgerSpec.AttachedFrom | src/fsvideo.js:105-106 | every native listener of a list stands for one of its entries |
| LedgerSpec.KeepDroppedPartition | src/fsvideo.js:71-72 | the listeners of the kept and of the removed entries make up the listeners of the old list |
| LedgerSpec.DeregisterPartition | src/fsvideo.js:71-72 | each splice is paired with a removeEventListener: kept plus removed listeners equal the old ones, with and without a handler |
| LedgerSpec.OnStep | src/fsvideo.js:94-106 | push plus addEventListener of a fitting wrapper keeps the table and the native listeners in step |
| LedgerSpec.OffStep | src/fsvideo.js:64-80 | splicing out `Removed` and detaching its wrappers keeps the table and the native listeners in step |
| Ledger.IdCounter.constructor | src/fsvideo.js:20 | the module-wide counter starts at 0 |
| Ledger.EventLedger.constructor | src/fsvideo.js:46 | the table starts empty, with no native listeners |
| Ledger.EventLedger.On | src/fsvideo.js:83-107 | an untagged element gets the next counter value and a tagged one keeps its tag; exactly one triple with a fresh wrapper for this element, event, handler and once flag goes to the end of its list; the same wrapper is added natively; other lists are unchanged |
| Ledger.EventLedger.Register | src/fsvideo.js:94-106 | the triple is appended to the element's list (created empty if missing) and its listener added, keeping the invariant |
| Ledger.EventLedger.Off | src/fsvideo.js:53-81 | an untagged element changes nothing; a tag with no list here throws and changes nothing; otherwise the list becomes `Deregister` of it and exactly the listeners of `Removed` are detached |
| Ledger.EventLedger.Unregister | src/fsvideo.js:59-80 | the element's list becomes `Deregister` of it and its listeners lose those of `Removed`, keeping the invariant |
| Ledger.EventLedger.Store | src/fsvideo.js:60-71 | the swept list and the remaining native listeners are written back under the tag, and nothing else in the table changes (`events` is the table's own array, spliced in place) |
| Ledger.EventLedger.Sweep | src/fsvideo.js:64-80 | the backwards loop with splice, removeEventListener and break computes `Deregister` and detaches the listeners of `Removed` |
| Ledger.EventLedger.Registered | src/fsvideo.js:105-106 | every native listener the ledger added sits on the element owning a tagged list and stems from an entry of that list with the same wrapper |
| Ledger.EventLedger.Owned | src/fsvideo.js:88-91 | an element that owns a list carries that list's tag, between 1 and the counter; no tag beyond the counter owns a list |
| Ledger.EventLedger.NoneLeftOn | src/fsvideo.js:68-73 | when an element's list is empty or it has no list, no native listener of the ledger remains on it |
| Ledger.EventLedger.Fire | src/fsvideo.js:98-103 | a persistent wrapper changes nothing; a one-shot wrapper removes the newest entry of its (event, handler) pair, not necessarily its own, so the count of that pair drops by one |
| Widget.PosterBySuffix | src/fsvideo.js:115-123 | a path is a poster exactly when it ends in '.' and an allowed suffix, or is a dot-free allowed suffix |
| Widget.PosterExample | src/fsvideo.js:115-123 | "a.b.gif" is a poster |
| Widget.VideoExample | src/fsvideo.js:115-123 | "clip.mp4" is a video |
| Widget.BareWordExample | src/fsvideo.js:115-123 | the bare word "png" is a poster |
| Widget.IsPoster | src/fsvideo.js:115-123 | poster mode: the first source's extension is one of jpg, png, gif (characterised by `PosterBySuffix`) |
| Widget.Loops | src/fsvideo.js:206 | `options.loop !== false`, with an absent option looping |
| Widget.MimeType | src/fsvideo.js:202 | the `type` of a source: "video/" followed by the path's extension (characterised by `MimeTypeFollowsExt`) |
| Widget.MimeTypeFollowsExt | src/fsvideo.js:202 | a source's type is "video/" followed by a dot-free suffix of its path that follows a '.' when the path has one |
| Widget.FSVideo.constructor | src/fsvideo.js:39-51 | a new widget is not initialized, has no element, holds the container it was given and a fresh, empty ledger of its own over the shared counter |
| Widget.FSVideo.PreparePoster | src/fsvideo.js:180-188 | a fresh `img` of class fsvideo-placeholder showing the first source, with a new tag and exactly one one-shot `load` entry, other lists unchanged |
| Widget.FSVideo.PrepareVideo | src/fsvideo.js:190-211 | a fresh `video` of class fsvideo-video, one `<source>` per path in order typed "video/" + ext, a one-shot `loadedmetadata` entry and then `ended` unless loop is false |
| Widget.FSVideo.NewVideo | src/fsvideo.js:192-204 | the `video` with its `<source>` children and one one-shot `loadedmetadata` entry under a new tag |
| Widget.FSVideo.ListenEnded | src/fsvideo.js:206-208 | unless loop is false, exactly one persistent `ended` entry joins the end of the video's list; otherwise the table is unchanged |
| Widget.FSVideo.SourceElements | src/fsvideo.js:199-204 | one source record per path, in order, with type "video/" + ext |
| Widget.FSVideo.OnLoadImgHandler | src/fsvideo.js:154-159 | a complete image gets the cover fit of its natural size in the window; an incomplete one is left alone |
| Widget.FSVideo.Init | src/fsvideo.js:109-139 | a second call and a call with no sources change nothing (children, mode, element, counter, window tag, table, listeners), and the latter throws; otherwise the widget becomes initialized, in poster mode exactly when `IsPoster(sources[0])`, with one new child appended (no other container field may change), the immediate fit of a complete poster, the element tagged with the next counter value, an untagged window tagged with the one after it and a tagged one keeping its tag, the counter advanced by exactly those draws, and exactly the element's and the window's lists in the table |
| Widget.FSVideo.Mount | src/fsvideo.js:119-138 | the body of a first `init`: classification, element, only the container's children changed (one appended), fit, the element's tag the next counter value, the window's tag the one after it if it had none and kept otherwise, the counter advanced by one or two, the element's and the window's listeners, initialized |
| Widget.FSVideo.Listen | src/fsvideo.js:123-136 | after the surface and the window registration the table holds exactly the surface's list (poster or video) and the window's resize list; the surface's tag is the counter's next value, an untagged window gets the one after it and a tagged one keeps its tag, and the counter grows by one or two accordingly |
| Widget.FSVideo.ListenResize | src/fsvideo.js:136 | an untagged window gets the next counter value; a tagged one keeps its tag and the counter stays; its list here is exactly one persistent `resize` entry |
| Widget.FSVideo.Show | src/fsvideo.js:124-138 | the element is stored and appended as the container's last child, a poster is fitted at once if complete, and the widget is marked initialized |
| Widget.FSVideo.Prepare | src/fsvideo.js:123-126 | the poster branch is taken exactly when the first source's extension is allowed, and the element is built and registered accordingly |
| Widget.FSVideo.Destroy | src/fsvideo.js:263-274 | no container: throws with the fields, the table and the listeners unchanged; otherwise only the container's children change, and they become empty; never initialized: then throws, table and listeners unchanged; live: the window's and the element's lists and native listeners are emptied and every other tag's are kept, mode and owners unchanged, and both references are dropped |
| Widget.FSVideo.RemoveChildren | src/fsvideo.js:265-268 | removing children from the last one down leaves the container empty |
| Widget.FSVideo.Unmount | src/fsvideo.js:270-273 | both lists and both elements' native listeners emptied, every other tag's kept, no ledger listener left on the window or the element, mode and owners unchanged, both references null |
| Widget.InitTwice | src/fsvideo.js:109-112 | two `init` calls over an empty container leave exactly one child, in the mode the first source picks |
| Widget.SiblingInit | src/fsvideo.js:88-91 | a first `init` of one widget leaves a sibling's table untouched and the sibling valid, and the new element's tag differs from the sibling element's, because the shared counter only grows |
| Widget.TwoWidgets | src/fsvideo.js:20-46 | two widgets built over one id counter are both valid and uninitialized, share the counter and each has its own `_events` table |
| Widget.FSVideo.Clear | src/fsvideo.js:270-271 | `_off(e)` on an element with a list here empties that list and its native listeners and changes no other tag's, with the owners kept |

## Left out

- `debounce`, `setTimeout` and `clearTimeout` (src/fsvideo.js:26-37) are timer scheduling. The resize registration is a plain ledger entry whose handler is the identity `Resize`. Each `init` builds a new debounced closure, and the model does not tell those apart; nothing ever removes that entry by handler.
- `_getElement`, `querySelector` and the `instanceof HTMLElement` test are DOM plumbing. The constructor takes the resolved container as a parameter.
- `createElement`, `appendChild` and `removeChild` are abstracted. Elements are `Dom.Element` objects, a container's children are a sequence, and `<source>` children are `Source` records on the video.
- The `px` formatting of `style` is left out. The style is the `Layout` record `FitToScreen` returns.
- Native event dispatch and `addEventListener` internals are ghost state: a multiset of (element, event, wrapper) listeners per tag. `Fire` models one dispatch of a registered wrapper.
- The bodies of the handlers are not modelled: `_onLoadedMetaDataHandler`, `_onEndHandler`, `_resizeHandler` and `video.play()`. Only their identities appear, as `Handler` values. `Fire` does not model what the handler itself does.
- `window.innerWidth`/`innerHeight`, `el.complete` and the natural size are inputs, in the `Probe` record.
- Geometry.FitToScreen: uses exact reals rather than IEEE-754 doubles, and requires a positive intrinsic size. JavaScript would produce Infinity or NaN for a zero size.
- Widget.FSVideo.Init: requires a complete poster image to report a positive natural size, for the same reason.
- Widget.FSVideo.OnLoadImgHandler: requires a complete image to report a positive natural size, for the same reason; a complete but broken image has size 0 and would give NaN styles in JavaScript.
- The UMD wrapper (src/fsvideo.js:6-19) is left out.
- The always-false `!this instanceof FSVideo` check (src/fsvideo.js:41) is dead code.
- Widget.FSVideo.Init: `options.loop` is an `Option<bool>`. A non-boolean value other than `false` behaves like `true` in the source. `options` being falsy is the absent option.
- Ledger.EventLedger.On: requires the element's tag to be one the shared counter handed out and, if this ledger knows the tag, to belong to this element (`Consistent`). Other instances drawing from the same counter are not modelled beyond that.
- Widget.FSVideo.NewVideo: builds the `<source>` children before registering `loadedmetadata`, where `_prepareVideo` does it after. `_on` does not look at the children, so the outcome is the same.
- Widget.FSVideo.Mount: registers the window's `resize` entry (in `Listen`) before it stores the element, appends it and fits the poster (in `Show`); `init` does those first (src/fsvideo.js:123-136). Neither group reads what the other writes.
- Ledger.EventLedger.On: builds the wrapper before tagging. Neither step reads what the other writes.
- `test/tests.js` is not part of this model.

# React gallery widgets in Dafny

This project models the state logic of eight widgets from a React component
gallery and proves what their handlers promise:

- **Typeahead**, a country search box. It has a module-wide result cache
  that holds at most 20 lower-cased queries and evicts the oldest insertion
  first. It resolves dotted paths with `getValueByPath` and filters the
  response down to items with a truthy `name.official`, keeping at most 30.
  It runs a debounced search that aborts the previous lookup, and it has a
  keyboard-driven listbox.
- **Dropdown**: a listbox with a controlled or uncontrolled selection,
  keyboard focus and click-outside closing.
- **Toast**: the queue of `useToast`, the option defaults of `addToast`,
  the container's grouping of toasts by screen corner, and a toast's
  enter/show/exit animation class.
- **Carousel**: a window of visible images that slides one step at a time
  between guards.
- **Accordion**: a set of open item ids that the headers toggle.
- **StarRating**: a committed rating, a hover preview, and the rule for
  which stars are filled.
- **ToggleSwitch**: a checked flag that flips unless the switch is disabled.
- **ProgressBar**: the clamp and label placement of the basic bar, the
  classification of a step bar's dots, and the demo's step buttons and
  animation tick.

Each source file maps to one module: `Typeahead`, `Dropdown`, `Toast`,
`Carousel`, `Accordion`, `StarRating`, `ToggleSwitch` and `ProgressBar`.
The Typeahead logic is spread over three more modules:

- `ResultCache`, the `Map` and `setCache`;
- `JsonPath`, `getValueByPath` and the result filter;
- `Text`, `trim` and `toLowerCase` on ASCII.

`Wrappers` provides `Option` and `Sequences` provides order-preserving
subsequences.

How the model is shaped:

- State that a component holds becomes a `class` whose methods are its
  handlers. Each method's postcondition ties the new state to a pure
  transition function.
- The pure functions carry the lemmas.
- Events from the outside world (timers that elapse, a lookup that settles,
  a mouse-down on the document) are methods called with the event's data.

Behaviour worth noting, as the code has it:

- The result filter keeps items whose `name.official` is truthy, not merely
  defined. An empty name is therefore dropped (`JsonPath.EmptyNameDropped`).
- A successful lookup opens the list even when no item survives the filter
  (`Typeahead.SettledSuccess`). So an open, empty list is possible.
- Typeahead's ArrowUp with no selection (index -1) gives -2, not the last
  item. The `prev == null` test never matches -1. From -2, ArrowDown gives
  -1 again (`Typeahead.UnselectedArrows`).
- A click on an option commits it and closes the list, but the commit
  refocuses the input. The focus handler then re-opens the list, because
  the results are not empty. Enter on the same option leaves the list
  closed (`Typeahead.ClickCommitsThenReopens`).
- The minimum query length counts UTF-16 code units, as `length` does. A
  single character outside the Basic Multilingual Plane is long enough to
  search (`Typeahead.AstralQueryIsSearched`).
- The Dropdown's ArrowDown on an empty option list computes
  `(prev + 1) % 0`, which is `NaN`. The focused index is therefore a
  `JsNumber` that may be `NaN` (`Dropdown.DownIndex`).
- The `error` state starts as the empty string and becomes `null` on every
  query change.
- In the ProgressBar demo the slider can leave an odd progress value while
  the animation runs. The next tick then overshoots to 101 before being
  pinned to 100, so the demo's invariant is `0 <= progress <= 101`.

## Model

| member | source | states |
|---|---|---|
| ResultCache.Lookup | src/challenges/Typeahead/index.jsx:67-68 | `map.get(key)` as a scan of the entries in insertion order. `LookupProperties` and `LookupPresent` state what it returns |
| ResultCache.Put | src/challenges/Typeahead/index.jsx:17 | `map.set(key, value)` on the entries. `PutProperties` states its effect |
| ResultCache.EvictOldest | src/challenges/Typeahead/index.jsx:13-16 | the delete of the first key when the cache is full. `SetCacheKeyOrder` states its effect |
| ResultCache.SetCache | src/challenges/Typeahead/index.jsx:12-18 | `setCache` as the eviction followed by `Put`. `SetCacheProperties`, `SetCacheKeyOrder` and `FifoWindow` state its effect |
| ResultCache.Cache.Get | src/challenges/Typeahead/index.jsx:68 | `cache.get(key)` returns a value exactly when `cache.has(key)` holds |
| ResultCache.Cache.Has | src/challenges/Typeahead/index.jsx:67 | `cache.has(key)` holds exactly when `key` is one of the cache's keys |
| ResultCache.Cache.Set | src/challenges/Typeahead/index.jsx:12-18 | `setCache` keeps the cache's invariant (distinct keys, at most 20). Afterwards `key` reads back its value, and every other key reads as before unless it was the oldest key of a full cache |
| ResultCache.LookupMissing | src/challenges/Typeahead/index.jsx:67-68 | a key that is not in the cache reads as a miss |
| ResultCache.LookupPresent | src/challenges/Typeahead/index.jsx:67-68 | a key that is in the cache reads back the value of an entry stored under it. With distinct keys, that is the value of its one entry |
| ResultCache.LookupProperties | src/challenges/Typeahead/index.jsx:67-68 | a read hits exactly when the key is present |
| ResultCache.PutProperties | src/challenges/Typeahead/index.jsx:17 | `map.set` makes the key map to the value and leaves other keys' values alone. Existing keys keep their insertion position, and a new key is appended |
| ResultCache.SetCacheProperties | src/challenges/Typeahead/index.jsx:12-18 | after `setCache` the keys stay distinct, the size is at most 20 and `key` maps to the value. Others keep their values except the evicted oldest key, which now misses, even when the key being set was already present |
| ResultCache.SetCacheKeyOrder | src/challenges/Typeahead/index.jsx:12-18 | the insertion order after `setCache`: a full cache first loses its first key, and `key` is appended unless it is still present |
| ResultCache.SetCacheFreshKey | src/challenges/Typeahead/index.jsx:12-18 | writing a new key leaves the last 20 of the old keys followed by the new key |
| ResultCache.FifoWindow | src/challenges/Typeahead/index.jsx:9-18 | after any run of writes of new, distinct keys, the cache holds exactly the 20 most recently inserted keys, in insertion order |
| ResultCache.OverflowEvictsFirst | src/challenges/Typeahead/index.jsx:10-18 | 21 distinct writes into an empty cache evict exactly the first key, and reading it is then a miss |
| JsonPath.Truthy | src/challenges/Typeahead/index.jsx:94 | JavaScript truthiness: undefined, null, false, 0 and the empty string are falsy, everything else is truthy. `EmptyNameDropped` relies on it |
| JsonPath.Member | src/challenges/Typeahead/index.jsx:21 | one step of the reduce, `acc?.[key]`: undefined for a nullish or non-object value, an object's own property otherwise. `ResolveNullish` states the nullish case |
| JsonPath.Resolve | src/challenges/Typeahead/index.jsx:21 | the reduce over the path segments. `ResolveConcat` and `ResolveNullish` state how it composes |
| JsonPath.GetValueByPath | src/challenges/Typeahead/index.jsx:20-22 | `getValueByPath` as the reduce over the split path. `DottedPath`, `NullishPath`, `SingleSegmentPath` and `RequiredPathLookup` state what it returns |
| JsonPath.Split | src/challenges/Typeahead/index.jsx:21 | `split('.')` always yields at least one part |
| JsonPath.SplitPartsNoSeparator | src/challenges/Typeahead/index.jsx:21 | no part of a split contains the separator |
| JsonPath.JoinSplit | src/challenges/Typeahead/index.jsx:21 | joining the parts back with the separator gives the original path |
| JsonPath.SplitJoin | src/challenges/Typeahead/index.jsx:21 | splitting a join of separator-free parts gives the parts back |
| JsonPath.SplitConcat | src/challenges/Typeahead/index.jsx:21 | splitting `a.b` is splitting `a` followed by splitting `b` |
| JsonPath.SplitSegment | src/challenges/Typeahead/index.jsx:21 | a separator-free segment followed by the separator splits off as one part |
| JsonPath.SplitNoSeparator | src/challenges/Typeahead/index.jsx:21 | a path without dots is a single segment |
| JsonPath.ResolveConcat | src/challenges/Typeahead/index.jsx:21 | the reduce over two runs of segments is the reduce over the second run, started from the first run's result |
| JsonPath.ResolveNullish | src/challenges/Typeahead/index.jsx:21 | once the accumulator is nullish, `acc?.[key]` yields undefined for every remaining segment |
| JsonPath.NullishPath | src/challenges/Typeahead/index.jsx:20-22 | `getValueByPath` on null or undefined yields undefined for every path, without failing |
| JsonPath.SingleSegmentPath | src/challenges/Typeahead/index.jsx:20-22 | a one-segment path is a direct property lookup |
| JsonPath.DottedPath | src/challenges/Typeahead/index.jsx:20-22 | `a.b` is `b` looked up in the value found at `a` |
| JsonPath.NullishPrefix | src/challenges/Typeahead/index.jsx:20-22 | when `a` resolves to a nullish value, `a.b` is undefined for every `b` |
| JsonPath.RequiredPathSegments | src/challenges/Typeahead/index.jsx:4 | `'name.official'` splits into `name` and `official` |
| JsonPath.RequiredPathLookup | src/challenges/Typeahead/index.jsx:4 | `getValueByPath(item, 'name.official')` is `item?.name?.official` |
| JsonPath.FilterRequired | src/challenges/Typeahead/index.jsx:94 | the filter keeps only items with a truthy `name.official`, keeps every such item, and keeps the original order |
| JsonPath.FilterRequiredCounts | src/challenges/Typeahead/index.jsx:94 | the filter keeps every copy of a qualifying item and no copy of any other item |
| JsonPath.RequiredResults | src/challenges/Typeahead/index.jsx:94 | the results: at most 30, each with a truthy `name.official`, an order-preserving subsequence of the response. They are the first `min(30, q)` qualifying items, where `q` is the number of qualifying items. A non-array response gives an empty list |
| JsonPath.RequiredResultsComplete | src/challenges/Typeahead/index.jsx:94 | when at most 30 items qualify, every qualifying item is shown |
| JsonPath.EmptyNameDropped | src/challenges/Typeahead/index.jsx:94 | an item whose `name.official` is the empty string is never shown |
| Text.LowerChar | src/challenges/Typeahead/index.jsx:67 | an upper-case ASCII letter becomes the lower-case letter 32 code points later, and every other character stays |
| Text.ToLower | src/challenges/Typeahead/index.jsx:67 | `toLowerCase` keeps the length and maps each character as `LowerChar` does |
| Text.Utf16Length | src/challenges/Typeahead/index.jsx:55 | `length` counts UTF-16 code units: at least one and at most two per character |
| Text.Utf16LengthBmp | src/challenges/Typeahead/index.jsx:55 | a string with no character outside the Basic Multilingual Plane has one code unit per character |
| Text.Utf16LengthToLower | src/challenges/Typeahead/index.jsx:67 | lower-casing keeps the code-unit length |
| Text.ToLowerIdempotent | src/challenges/Typeahead/index.jsx:67 | lower-casing a cache key again changes nothing |
| Text.TrimStart | src/challenges/Typeahead/index.jsx:235 | the first half of `trim` keeps a suffix of the input that does not start with white space, and drops only white space |
| Text.TrimEnd | src/challenges/Typeahead/index.jsx:235 | the second half of `trim` keeps a prefix of its input that does not end with white space, and drops only white space |
| Text.Trim | src/challenges/Typeahead/index.jsx:235 | `trim` yields a contiguous slice of the input that neither starts nor ends with white space, with only white space before and after it |
| Text.TrimIdempotent | src/challenges/Typeahead/index.jsx:235 | trimming a trimmed value changes nothing |
| Typeahead.ArrowDownIndex | src/challenges/Typeahead/index.jsx:171-180 | ArrowDown keeps a selected index on an item, moves from the last item to 0, and moves from no selection (-1) to 0 |
| Typeahead.ArrowUpIndex | src/challenges/Typeahead/index.jsx:181-190 | ArrowUp keeps a selected index on an item and moves from 0 to the last item. From -1 it yields -2 |
| Typeahead.ArrowDownCycle | src/challenges/Typeahead/index.jsx:171-180 | on a non-empty list, up to a full round of ArrowDown presses advances the selection cyclically |
| Typeahead.ArrowDownFullCircle | src/challenges/Typeahead/index.jsx:171-180 | one ArrowDown per item returns to the same item |
| Typeahead.UnselectedArrows | src/challenges/Typeahead/index.jsx:171-190 | with no selection, ArrowUp gives -2 and ArrowDown takes -2 back to -1, so neither reaches an item |
| Typeahead.ArrowKeysInverse | src/challenges/Typeahead/index.jsx:171-190 | on a selected item, ArrowUp undoes ArrowDown and vice versa |
| Typeahead.InitialState | src/challenges/Typeahead/index.jsx:25-39 | the state on mount: empty value and results, error `""`, list closed, no selection, the debounce armed for the empty query |
| Typeahead.WithValue | src/challenges/Typeahead/index.jsx:114-126 | `setValue` and the `[value]` effect: abort the request and re-arm the debounce when the value changes. `QueryChangeClearsError` and `TransitionsKeepPending` state its effect |
| Typeahead.QueryChanged | src/challenges/Typeahead/index.jsx:128-131 | `handleInputQueryChange`: clear the error, then set the value. `QueryChangeClearsError` and `DebounceKeepsLast` state its effect |
| Typeahead.Edited | src/challenges/Typeahead/index.jsx:235 | the input's `onChange`: the trimmed text goes to `handleInputQueryChange`. `Session.InputChanged` is proved against it |
| Typeahead.QueryChangeClearsError | src/challenges/Typeahead/index.jsx:128-131 | a query change sets the error to null at once and arms the debounce for the new value. It leaves the results, the list and loading alone |
| Typeahead.DebounceKeepsLast | src/challenges/Typeahead/index.jsx:47-52 | after any burst of query changes, the only armed search is for the last value typed |
| Typeahead.Searched | src/challenges/Typeahead/index.jsx:54-79 | `search` up to its first `await`. `SearchShortQuery`, `SearchCacheHit`, `SearchMiss` and `SearchIgnoresCase` state each exit |
| Typeahead.SearchShortQuery | src/challenges/Typeahead/index.jsx:55-59 | a query shorter than 2 UTF-16 code units empties the results and closes the list, without aborting, reading the cache or loading |
| Typeahead.SearchCacheHit | src/challenges/Typeahead/index.jsx:61-72 | on a hit for the lower-cased query the cached list is shown and the list opens, with no lookup. The previous request is aborted, and the selection and loading flag stay |
| Typeahead.AstralQueryIsSearched | src/challenges/Typeahead/index.jsx:55 | a query of one character outside the Basic Multilingual Plane is two code units long, so it is searched |
| Typeahead.SearchIgnoresCase | src/challenges/Typeahead/index.jsx:54-79 | queries that differ only in letter case take the same exit of `search`: both short, both hits on the same entry, or both misses. They end in the same state, except that a started lookup records the query as typed |
| Typeahead.SearchMiss | src/challenges/Typeahead/index.jsx:74-79 | on a miss a lookup starts with loading on, and it is the only live request |
| Typeahead.Settled | src/challenges/Typeahead/index.jsx:94-111 | the state change after a lookup settles. `SettledSuccess` and `SettledFailureOrAbort` state each outcome |
| Typeahead.SettledCache | src/challenges/Typeahead/index.jsx:96 | the cache write of a settled lookup. `SettledSuccess` and `SettledFailureOrAbort` state it |
| Typeahead.SettledSuccess | src/challenges/Typeahead/index.jsx:94-99 | a successful lookup shows and caches the filtered results under the lower-cased query, opens the list (even an empty one) and clears the selection |
| Typeahead.SettledFailureOrAbort | src/challenges/Typeahead/index.jsx:100-111 | a failure sets the fixed error message, clears the results and closes the list. An abort changes nothing. Neither writes the cache, and both arm the loading clear |
| Typeahead.SelectItem | src/challenges/Typeahead/index.jsx:201-205 | `selectListItem`: commit the item's `name.official` text, close the list and reset the selection. `KeyDownEnter` and `TransitionsKeepPending` state its effect |
| Typeahead.KeyDown | src/challenges/Typeahead/index.jsx:133-199 | `handleKeyDown` as a new state and a `preventDefault` flag. The `KeyDown*` lemmas state each key's effect |
| Typeahead.Focused | src/challenges/Typeahead/index.jsx:214-218 | `handleInputFocus`: re-open a non-empty list. `TransitionsKeepPending` and `ClickCommitsThenReopens` use it |
| Typeahead.KeyDownClosed | src/challenges/Typeahead/index.jsx:144 | while the list is closed no key changes anything or is intercepted |
| Typeahead.KeyDownArrowsWrap | src/challenges/Typeahead/index.jsx:171-190 | on an open list with a selected item, ArrowDown from the last item gives 0, ArrowUp from 0 gives the last item, and both stay on an item |
| Typeahead.KeyDownCloseKeys | src/challenges/Typeahead/index.jsx:148-162 | Tab and Escape close the list and clear the selection, and only Escape is intercepted. Other non-navigation keys change nothing |
| Typeahead.KeyDownEnter | src/challenges/Typeahead/index.jsx:165-170 | Enter on a selected item commits its `name.official` as the value, closes the list and clears the selection. Without a selection it changes nothing |
| Typeahead.ClickCommitsThenReopens | src/challenges/Typeahead/index.jsx:201-218 | a click commits an item as Enter on it does, but the commit's refocus runs the focus handler, which re-opens the list. Enter leaves it closed |
| Typeahead.ItemClicked | src/challenges/Typeahead/index.jsx:201-218 | `handleItemClick`: the commit of `selectListItem` followed by the input's focus handler. `ClickCommitsThenReopens` states its effect |
| Typeahead.TransitionsKeepPending | src/challenges/Typeahead/index.jsx:114-131 | every transition keeps the debounce slot holding the current value |
| Typeahead.Session.AbortCurrent | src/challenges/Typeahead/index.jsx:62-64 | aborting marks the current controller aborted and records its request as aborted, changing nothing else |
| Typeahead.Session.SetValue | src/challenges/Typeahead/index.jsx:114-126 | setting a new value aborts the outstanding request and re-arms the debounce for the value |
| Typeahead.Session.HandleInputQueryChange | src/challenges/Typeahead/index.jsx:128-131 | the handler's new state is `QueryChanged`, and every request stays aborted or live |
| Typeahead.Session.InputChanged | src/challenges/Typeahead/index.jsx:235 | the input hands the trimmed text to the query handler |
| Typeahead.Session.Search | src/challenges/Typeahead/index.jsx:54-79 | `search` follows `Searched` on the shared cache and reports which exit it took |
| Typeahead.Session.StartLookup | src/challenges/Typeahead/index.jsx:74-79 | the miss path of `search` turns loading on and installs a fresh, live controller for a request that has not settled |
| Typeahead.Session.DebounceElapsed | src/challenges/Typeahead/index.jsx:51 | the elapsed debounce searches for the current value |
| Typeahead.Session.Settle | src/challenges/Typeahead/index.jsx:81-111 | only the live request can change the results, the list, the error or the cache. A stale request only arms a loading clear. Each request settles once |
| Typeahead.SearchThenSettle | src/challenges/Typeahead/index.jsx:54-105 | a search that starts a lookup, followed by that lookup settling: a success shows, opens and caches the filtered response under the lower-cased query, and a failure shows the error message with an empty, closed list |
| Typeahead.Session.LoadingClearElapsed | src/challenges/Typeahead/index.jsx:107-110 | the delayed loading clear turns loading off |
| Typeahead.Session.SelectListItem | src/challenges/Typeahead/index.jsx:201-207 | selecting an item commits its `name.official` text, closes the list and resets the selection |
| Typeahead.Session.HandleKeyDown | src/challenges/Typeahead/index.jsx:133-199 | the key handler's new state and `preventDefault` follow `KeyDown` |
| Typeahead.Session.HandleItemClick | src/challenges/Typeahead/index.jsx:201-218 | a click on an item commits it, and the refocus that follows leaves the list open |
| Typeahead.Session.HandleInputFocus | src/challenges/Typeahead/index.jsx:214-218 | focus re-opens a non-empty list and changes nothing else |
| Typeahead.Session.Unmount | src/challenges/Typeahead/index.jsx:116-125 | after unmount no debounce is armed and no request is live |
| Dropdown.DownIndex | src/challenges/Dropdown/index.jsx:46 | ArrowDown keeps a focus in `[-1, n-1]` on an option, takes -1 and `n-1` to 0, and gives NaN with no options |
| Dropdown.UpIndex | src/challenges/Dropdown/index.jsx:49-51 | ArrowUp keeps a focus in `[-1, n-1]` on an option and takes 0 and -1 to `n-1` |
| Dropdown.DownIsSuccessorModulo | src/challenges/Dropdown/index.jsx:46 | for `n > 0` and a focus in `[-1, n-1]`, ArrowDown is `(index + 1) mod n` |
| Dropdown.ArrowsInverse | src/challenges/Dropdown/index.jsx:46-51 | on a focused option, ArrowUp undoes ArrowDown and vice versa |
| Dropdown.FinalSelected | src/challenges/Dropdown/index.jsx:23 | the shown selection is the `selected` prop whenever it is given, and the internal one otherwise |
| Dropdown.Dropdown.constructor | src/challenges/Dropdown/index.jsx:18-20 | the list starts closed with no focused option and no internal selection, and the focus invariant holds |
| Dropdown.Dropdown.Shown | src/challenges/Dropdown/index.jsx:23 | the shown selection is `FinalSelected` of the prop and the internal selection |
| Dropdown.Dropdown.ToggleDropdown | src/challenges/Dropdown/index.jsx:25 | the button flips `isOpen` and leaves the focus and the selection alone |
| Dropdown.Dropdown.CloseDropdown | src/challenges/Dropdown/index.jsx:26-29 | closing resets the focus to -1 |
| Dropdown.Dropdown.HandleSelect | src/challenges/Dropdown/index.jsx:31-35 | a selection is remembered only when uncontrolled, reported to `onSelect`, and closes the list |
| Dropdown.Dropdown.HandleKeyDown | src/challenges/Dropdown/index.jsx:41-57 | keys do nothing while closed. The arrows move the focus, Enter selects the focused option only when the focus is at least 0, and Escape closes |
| Dropdown.Dropdown.MouseDown | src/challenges/Dropdown/index.jsx:37-39 | a mouse-down outside an open dropdown closes it |
| Dropdown.Dropdown.MouseEnterOption | src/challenges/Dropdown/index.jsx:98 | hovering an option focuses it |
| Dropdown.Dropdown.ClickOption | src/challenges/Dropdown/index.jsx:99 | clicking an option selects it |
| Toast.MakeToast | src/challenges/Toast/index.jsx:164-171 | `type` and `direction` fall back to `info` and `top-right` when absent or empty. `duration` falls back to 3000 and `showCloseButton` to true only when undefined, so 0 and false are kept |
| Toast.AllDefaults | src/challenges/Toast/index.jsx:164-171 | a toast with no options is an info toast for 3000 ms at top-right with a close button |
| Toast.TypedHelperForcesKind | src/challenges/Toast/index.jsx:190-193 | the typed helpers impose their own type over `options.type` and keep every other option |
| Toast.WithKind | src/challenges/Toast/index.jsx:190-193 | the typed helpers' `{ ...options, type }`: the type becomes the helper's and every other option stays |
| Toast.RemoveById | src/challenges/Toast/index.jsx:177-179 | removal drops exactly the toasts with the id and keeps the others in order. An absent id leaves the list unchanged |
| Toast.RemoveByIdConcat | src/challenges/Toast/index.jsx:178 | the removal filter distributes over concatenation |
| Toast.AddThenRemove | src/challenges/Toast/index.jsx:162-179 | removing a toast just added under a fresh id restores the queue |
| Toast.ToastQueue.AddToast | src/challenges/Toast/index.jsx:162-175 | `addToast` appends exactly one toast at the end, keeps the earlier ones and returns the new id |
| Toast.ToastQueue.constructor | src/challenges/Toast/index.jsx:160 | the queue starts empty |
| Toast.ToastQueue.RemoveToast | src/challenges/Toast/index.jsx:177-179 | the queue becomes its filter by id |
| Toast.ToastQueue.RemoveAllToasts | src/challenges/Toast/index.jsx:181-183 | the queue becomes empty |
| Toast.ToastQueue.Success | src/challenges/Toast/index.jsx:190 | adds a toast whose type is `success` |
| Toast.ToastQueue.Error | src/challenges/Toast/index.jsx:191 | adds a toast whose type is `error` |
| Toast.ToastQueue.Warning | src/challenges/Toast/index.jsx:192 | adds a toast whose type is `warning` |
| Toast.ToastQueue.Info | src/challenges/Toast/index.jsx:193 | adds a toast whose type is `info` |
| Toast.GroupKey | src/challenges/Toast/index.jsx:201 | a toast is grouped under its direction, or under `top-right` when the direction is empty |
| Toast.Corners | src/challenges/Toast/index.jsx:200-209 | the corners in the order their first toast appears. `CornersProperties` states that they are distinct and exactly the toasts' corners |
| Toast.InCorner | src/challenges/Toast/index.jsx:200-205 | the toasts of one corner in queue order. `InCornerProperties` states it |
| Toast.InCornerProperties | src/challenges/Toast/index.jsx:200-205 | a corner's group holds exactly the toasts of that corner, in queue order |
| Toast.CornersProperties | src/challenges/Toast/index.jsx:200-205 | the groups' corners are distinct and are exactly the corners of the queued toasts |
| Toast.FindGroup | src/challenges/Toast/index.jsx:202 | the lookup of a corner's group finds it when it exists and reports its absence otherwise |
| Toast.GroupByDirection | src/challenges/Toast/index.jsx:200-205 | the reduce builds one group per corner, in first-seen order, each holding that corner's toasts in queue order |
| Toast.GroupingPartitions | src/challenges/Toast/index.jsx:200-205 | every toast lands in exactly one group, the one of its corner |
| Toast.TransformPhase | src/challenges/Toast/index.jsx:94-98 | the transform is the exit class when exiting, else the show class when visible, else the enter class |
| Toast.DirectionsTable | src/challenges/Toast/index.jsx:12-49 | the six corners have table entries. In each entry a toast exits the way it entered, enters with `opacity-0` and shows with `opacity-100` |
| Toast.Directions | src/challenges/Toast/index.jsx:12-49 | the direction table: six known corners, none for any other string. `DirectionsTable` states its entries |
| Toast.TransformClass | src/challenges/Toast/index.jsx:91-98 | the class is taken from the corner's table entry according to the phase. An unknown corner has none |
| Carousel.NextIndex | src/challenges/Carousel/index.jsx:15-28 | Next advances by exactly one only when `startIndex + visible < len`, and preserves `start == 0 or start + visible <= len` |
| Carousel.PreviousIndex | src/challenges/Carousel/index.jsx:16-22 | Previous steps back by exactly one only when `startIndex > 0`, so the index never goes negative |
| Carousel.PreviousUndoesNext | src/challenges/Carousel/index.jsx:15-28 | an allowed Next followed by Previous restores the start index |
| Carousel.NextUndoesPrevious | src/challenges/Carousel/index.jsx:15-28 | an allowed Previous followed by Next restores the start index when the window fits |
| Carousel.Window | src/challenges/Carousel/index.jsx:34 | the shown images are the in-order slice from the start index, of length `min(visible, len - start)` |
| Carousel.CanGoNext | src/challenges/Carousel/index.jsx:15 | `canGoNext`: the window does not yet reach the last image. `NextIndex` states its use |
| Carousel.CanGoPrevious | src/challenges/Carousel/index.jsx:16 | `canGoPrevious`: the window does not start at the first image. `PreviousIndex` states its use |
| Carousel.Carousel.constructor | src/challenges/Carousel/index.jsx:12-13 | the window starts at the first image and its invariant holds |
| Carousel.Carousel.Shown | src/challenges/Carousel/index.jsx:34 | the images shown are `Window` of the current state. `FullWindow` states their number |
| Carousel.Carousel.HandlePreviousClick | src/challenges/Carousel/index.jsx:18-22 | the click keeps the window's invariant and applies `PreviousIndex` |
| Carousel.Carousel.HandleNextClick | src/challenges/Carousel/index.jsx:24-28 | the click keeps the window's invariant and applies `NextIndex` |
| Carousel.FullWindow | src/challenges/Carousel/index.jsx:13-34 | in every reachable state the carousel shows `min(visible, len)` images |
| Accordion.Toggled | src/challenges/Accordion/index.jsx:40-50 | toggling adds an absent id, removes a present one and leaves every other id alone |
| Accordion.ToggleTwice | src/challenges/Accordion/index.jsx:40-50 | toggling the same id twice restores the open set |
| Accordion.TogglesCommute | src/challenges/Accordion/index.jsx:40-50 | toggles of different items commute, so several items can be open at once |
| Accordion.Accordion.constructor | src/challenges/Accordion/index.jsx:38-56 | every item starts closed |
| Accordion.Accordion.OnToggle | src/challenges/Accordion/index.jsx:40-50 | `onToggle` replaces the open set with its toggle |
| Accordion.Accordion.HeaderClick | src/challenges/Accordion/index.jsx:24-57 | a header click flips whether its item renders open |
| Accordion.Accordion.HeaderKeyDown | src/challenges/Accordion/index.jsx:24 | Enter or Space toggles the header's item, and other keys do nothing |
| Accordion.IsToggleKey | src/challenges/Accordion/index.jsx:24 | the keys that toggle a header: Enter and Space |
| Accordion.Accordion.IsOpen | src/challenges/Accordion/index.jsx:56 | an item is open exactly when its id is in the open set |
| StarRating.EffectiveRating | src/challenges/StarRating/index.jsx:34 | the hover rating wins whenever it is non-zero |
| StarRating.Fills | src/challenges/StarRating/index.jsx:33-44 | star `i` of `maxStars` is filled exactly when `i` is below the effective rating |
| StarRating.FilledPrefix | src/challenges/StarRating/index.jsx:33-44 | the filled stars form a prefix of length `min(maxStars, max(0, effective))` |
| StarRating.HoverPreview | src/challenges/StarRating/index.jsx:23-36 | hovering star `i` fills `i + 1` stars, and without a hover the committed rating shows |
| StarRating.StarRating.constructor | src/challenges/StarRating/index.jsx:12-13 | the rating starts at `initialRating` and the hover at 0 |
| StarRating.StarRating.StarFills | src/challenges/StarRating/index.jsx:33-44 | the rendered fills are `Fills` of the current state. `FilledPrefix` and `HoverPreview` state what they are |
| StarRating.StarRating.HandleStarClick | src/challenges/StarRating/index.jsx:15-21 | a click on star `i` sets and reports `i + 1` unless readonly, when nothing changes or is reported |
| StarRating.StarRating.HandleStarHover | src/challenges/StarRating/index.jsx:23-26 | hovering star `i` sets the hover to `i + 1` unless readonly |
| StarRating.StarRating.HandleMouseLeave | src/challenges/StarRating/index.jsx:28-31 | leaving resets the hover to 0 unless readonly |
| ToggleSwitch.Toggled | src/challenges/ToggleSwitch/index.jsx:14-17 | an enabled toggle flips the state and a disabled one keeps it |
| ToggleSwitch.ToggleTwice | src/challenges/ToggleSwitch/index.jsx:14-19 | two toggles restore the state |
| ToggleSwitch.ToggleSwitch.constructor | src/challenges/ToggleSwitch/index.jsx:12 | the switch starts at `defaultChecked` |
| ToggleSwitch.ToggleSwitch.HandleToggle | src/challenges/ToggleSwitch/index.jsx:14-19 | an enabled toggle flips the state and reports the new value to `onChange` when given. A disabled one changes and reports nothing |
| ToggleSwitch.ToggleSwitch.HandleKeyDown | src/challenges/ToggleSwitch/index.jsx:21-26 | Space and Enter toggle and suppress the default, and other keys are ignored |
| ToggleSwitch.IsToggleKey | src/challenges/ToggleSwitch/index.jsx:22 | the keys that toggle the switch: Space and Enter |
| ProgressBar.Clamp | src/challenges/ProgressBar/index.jsx:5 | clamped progress lies in `[0, 100]` and equals the input when it is already in range |
| ProgressBar.ClampIdempotent | src/challenges/ProgressBar/index.jsx:5 | clamping twice is clamping once |
| ProgressBar.LabelExactlyOnce | src/challenges/ProgressBar/index.jsx:23-30 | with `showLabel` the label appears exactly once: inside iff the clamped value exceeds 15, below otherwise |
| ProgressBar.LabelInside | src/challenges/ProgressBar/index.jsx:23 | the label is drawn inside the bar when shown and the clamped value is above 15. `LabelExactlyOnce` states it |
| ProgressBar.LabelBelow | src/challenges/ProgressBar/index.jsx:30 | the label is drawn below the bar when shown and the clamped value is at most 15. `LabelExactlyOnce` states it |
| ProgressBar.StepDot | src/challenges/ProgressBar/index.jsx:63-72 | each dot is exactly one of completed (`i < step`), active (`i == step`) or pending |
| ProgressBar.DotsOrdered | src/challenges/ProgressBar/index.jsx:49-72 | completed dots precede pending ones, at most one is active, and a label is highlighted iff its dot is completed |
| ProgressBar.LabelHighlighted | src/challenges/ProgressBar/index.jsx:49 | a step label is highlighted when its step is completed. `DotsOrdered` states it |
| ProgressBar.Tick | src/challenges/ProgressBar/index.jsx:134-140 | a tick pins progress at 100 and stops the animation once it reaches 100, and otherwise adds 2 |
| ProgressBar.AnimationRun | src/challenges/ProgressBar/index.jsx:134-150 | from 0, as `startAnimation` sets it, `k <= 50` ticks give `2k` with the animation still running |
| ProgressBar.AnimationStops | src/challenges/ProgressBar/index.jsx:134-150 | from 0, every tick after the 50th leaves progress at 100 with the animation stopped |
| ProgressBar.AfterStopFixed | src/challenges/ProgressBar/index.jsx:135-138 | once at 100, further ticks leave progress at 100 and the animation stopped |
| ProgressBar.Demo.NextStep | src/challenges/ProgressBar/index.jsx:158-162 | Next advances the step only below `steps.length`, so the step stays in `[0, 4]` |
| ProgressBar.Demo.constructor | src/challenges/ProgressBar/index.jsx:124-126 | the demo starts at progress 0, step 0, not animating |
| ProgressBar.Demo.PrevStep | src/challenges/ProgressBar/index.jsx:164-168 | Previous steps back only above 0, so the step stays in `[0, 4]` |
| ProgressBar.Demo.ResetProgress | src/challenges/ProgressBar/index.jsx:152-156 | reset sets progress and step to 0 and stops the animation |
| ProgressBar.Demo.StartAnimation | src/challenges/ProgressBar/index.jsx:147-150 | start sets progress to 0 and starts the animation |
| ProgressBar.Demo.Slide | src/challenges/ProgressBar/index.jsx:182-187 | the slider sets progress to its value |
| ProgressBar.Demo.IntervalTick | src/challenges/ProgressBar/index.jsx:133-141 | one interval firing, which happens only while animating, applies `Tick` and keeps progress in `[0, 101]` |

## Left out

- Network I/O is not modelled: `fetch`, `response.ok`, `response.json` and
  the URL built with `encodeURIComponent`. A lookup's outcome (success with
  a JSON value, failure, or abort) is an input to `Typeahead.Session.Settle`.
- The `AbortController` object is not modelled. Each lookup has a
  `Controller` record with an id, and a ghost set records the aborted ids.
  An aborted request is required to settle with an `AbortError`, as `fetch`
  does.
- Timers are not modelled. The 300 ms debounce is one pending-query slot
  that the latest query change overwrites. The 3000 ms loading clear is a
  count of armed clears. The toast enter (10 ms), auto-dismiss and exit
  (300 ms) timers are left out. So are the interval scheduling of the
  progress demo and the clearing of that interval. Each elapsed timer that
  is modelled is a method call.
- Toast ids come from `Date.now() + Math.random()`, which is
  nondeterministic. The caller passes the id in.
- A single toast's `isVisible`/`isExiting` state and `onRemove` callback are
  left out. They are timer-driven, and only `getTransformClass` over those
  flags is modelled. The `TOAST_TYPES` styles and the icons are
  presentational.
- `trim` and `toLowerCase` are modelled on ASCII only: six white-space
  characters, and the letters A to Z. Unicode white space and case mapping
  are not modelled.
- JSON numbers are integers. `NaN`, fractions and the floating-point
  behaviour of `Math.min`/`Math.max`/`Math.round` are not modelled. The
  percentage widths of the step bar and the circular progress geometry are
  left out.
- JsonPath.Member looks up only an object's own fields. Property lookups on
  arrays and strings (`length`, prototype members) yield undefined in the
  model.
- Typeahead.SelectItem and Typeahead.Session.SelectListItem: only a string `name.official` is
  committed as the input value. The source would also store a non-string
  truthy value. An item reached through Enter or a click always has a
  truthy `name.official`, which the response data gives as a string.
- The `default:` branch of the typeahead key switch is unreachable, since
  only navigation keys reach the switch, and is not modelled.
- Focus and blur are not events of their own. The refocus after a click on
  an option is a call of the focus handler (`Typeahead.ItemClicked`), and
  the blur handler does nothing.
- The document listeners and the `contains` check of the Dropdown are
  modelled as a mouse-down event that says whether it hit the widget. Their
  registration is not modelled.
- The Dropdown's `options` and `selected` props are fixed for the lifetime
  of the model. A prop change while mounted is not modelled.
- `Object.entries` lists integer-like keys before the others, so a
  direction named like a number would be reordered. Directions named after
  `Object.prototype` members (`constructor`, `toString`) make the
  container's `acc[direction].push` fail. Neither case is modelled; groups
  come in first-seen order.
- The `Set` of open accordion items is modelled as a mathematical set. Its
  insertion order is never observed.
- Carousel.Carousel: the visible count is a natural number. Negative or
  fractional counts, which `slice` would treat specially, are not modelled.
- Components that are not part of this model: ModalDialog, Tabs, App and
  the hash router. JSX markup (the Dropdown button's text among it), ARIA
  attributes, class strings other than the `DIRECTIONS` transforms that
  `getTransformClass` returns, and the CircularProgress arithmetic are left
  out as presentational.

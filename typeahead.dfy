/** The typeahead's interaction state: the search decision (short query,
    cache hit, network), the settling of a lookup, the single debounce slot,
    request cancellation, and the keyboard/pointer listbox. Each updater is a
    pure transition on `SessionState`; the `Session` class holds the
    component's fields and its handlers are proved against those
    transitions. Timers and the network are events: the debounce timer
    elapsing, a lookup settling with an outcome, the loading-indicator timer
    elapsing. */
module Typeahead {
  import opened Wrappers
  import opened JsonPath
  import opened Text
  import ResultCache

  const MinQueryLength: nat := 2
  const FetchFailedMessage: string := "Failed to fetch. Please try again."

  datatype Key = Tab | Enter | ArrowDown | ArrowUp | Escape | Other(name: string)

  /** How a started lookup ends: a parsed response, an HTTP or network or
      parse failure, or an `AbortError`. */
  datatype FetchOutcome = Success(data: Json) | Failure | Aborted

  /** `abortControllerRef.current`: the request it belongs to and whether
      `abort()` has been called on it. */
  datatype Controller = Controller(id: nat, query: string, aborted: bool)

  datatype SearchStep = ShortQuery | CacheHit | Fetching(id: nat)

  /** The component's state fields, plus the two timers' and the request's
      refs: `pendingQuery` is the debounce slot (`debounceRef`),
      `pendingLoadingClears` counts the armed 3000 ms loading-clear timers. */
  datatype SessionState = SessionState(
    value: string,
    results: seq<Json>,
    isLoading: bool,
    error: Option<string>,
    isOpen: bool,
    selectedIndex: int,
    pendingQuery: Option<string>,
    controller: Option<Controller>,
    nextRequestId: nat,
    pendingLoadingClears: nat)

  /** The state on mount, after the mount effect armed the debounce timer
      for the empty query. `error` starts as the empty string. */
  function InitialState(): SessionState {
    SessionState("", [], false, Some(""), false, -1, Some(""), None, 0, 0)
  }

  // ---------------------------------------------------------------------
  // Listbox index updaters

  /** The ArrowDown updater: wrap from the last index to 0. */
  function ArrowDownIndex(prev: int, count: nat): (r: int)
    ensures 0 <= prev < count ==> 0 <= r < count
    ensures prev == -1 ==> r == 0
    ensures count > 0 && prev == count - 1 ==> r == 0
  {
    if prev == count - 1 then 0 else prev + 1
  }

  /** The ArrowUp updater: wrap from 0 to the last index. From -1 (no
      selection) it yields -2, which no item has. */
  function ArrowUpIndex(prev: int, count: nat): (r: int)
    ensures 0 <= prev < count ==> 0 <= r < count
    ensures prev == 0 ==> r == count - 1
    ensures prev == -1 ==> r == -2
  {
    if prev == 0 then count - 1 else prev - 1
  }

  /** `k` presses of ArrowDown. */
  function ArrowDownTimes(i: int, count: nat, k: nat): int
    decreases k
  {
    if k == 0 then i else ArrowDownIndex(ArrowDownTimes(i, count, k - 1), count)
  }

  /** On a non-empty list, ArrowDown from a selected item moves cyclically:
      `k` presses (up to one full round) advance the index by `k`, wrapping
      past the end. */
  lemma {:induction false} ArrowDownCycle(i: int, count: nat, k: nat)
    requires 0 <= i < count && k <= count
    ensures ArrowDownTimes(i, count, k) == if i + k < count then i + k else i + k - count
    decreases k
  {
    if k > 0 {
      ArrowDownCycle(i, count, k - 1);
    }
  }

  /** Pressing ArrowDown once per item comes back to the same item. */
  lemma ArrowDownFullCircle(i: int, count: nat)
    requires 0 <= i < count
    ensures ArrowDownTimes(i, count, count) == i
  {
    ArrowDownCycle(i, count, count);
  }

  /** Without a selection ArrowUp leaves the items (-1 gives -2), and
      ArrowDown from there comes back to -1, still without a selection. */
  lemma UnselectedArrows(count: nat)
    ensures ArrowUpIndex(-1, count) == -2
    ensures ArrowDownIndex(-2, count) == -1
    ensures ArrowDownIndex(ArrowUpIndex(-1, count), count) == -1
  {
  }

  /** On a selected item, ArrowUp undoes ArrowDown and vice versa. */
  lemma ArrowKeysInverse(i: int, count: nat)
    requires 0 <= i < count
    ensures ArrowUpIndex(ArrowDownIndex(i, count), count) == i
    ensures ArrowDownIndex(ArrowUpIndex(i, count), count) == i
  {
  }

  // ---------------------------------------------------------------------
  // Transitions

  function AbortController(c: Option<Controller>): Option<Controller> {
    if c.Some? then Some(c.value.(aborted := true)) else None
  }

  predicate IsLive(st: SessionState, id: nat) {
    st.controller.Some? && st.controller.value.id == id && !st.controller.value.aborted
  }

  /** `setValue(v)` followed, when the value really changes, by the `[value]`
      effect: its cleanup clears the debounce timer and aborts the
      outstanding request, then `debouncedSearch(v)` arms the timer for `v`. */
  function WithValue(st: SessionState, v: string): SessionState {
    if v == st.value then st
    else st.(value := v, pendingQuery := Some(v), controller := AbortController(st.controller))
  }

  /** `handleInputQueryChange(v)`: clear the error, then set the value. */
  function QueryChanged(st: SessionState, v: string): SessionState {
    WithValue(st.(error := None), v)
  }

  /** The input's `onChange`: trim at the boundary, then handle the change. */
  function Edited(st: SessionState, raw: string): SessionState {
    QueryChanged(st, Trim(raw))
  }

  /** The debounce slot holds nothing or the current value. */
  predicate PendingIsValue(st: SessionState) {
    st.pendingQuery.None? || st.pendingQuery == Some(st.value)
  }

  /** A query change clears the error at once, keeps the slot holding the
      current value and never touches results, the listbox or loading. */
  lemma QueryChangeClearsError(st: SessionState, v: string)
    requires PendingIsValue(st)
    ensures QueryChanged(st, v).error == None
    ensures QueryChanged(st, v).value == v
    ensures PendingIsValue(QueryChanged(st, v))
    ensures v != st.value ==> QueryChanged(st, v).pendingQuery == Some(v)
    ensures QueryChanged(st, v).results == st.results && QueryChanged(st, v).isOpen == st.isOpen
    ensures QueryChanged(st, v).isLoading == st.isLoading
  {
  }

  function ApplyChanges(st: SessionState, qs: seq<string>): SessionState
    decreases |qs|
  {
    if qs == [] then st else ApplyChanges(QueryChanged(st, qs[0]), qs[1..])
  }

  /** Debouncing: after any burst of query changes, the one armed search (if
      any) is for the last query typed, so no earlier query of the burst can
      reach the lookup. */
  lemma {:induction false} DebounceKeepsLast(st: SessionState, qs: seq<string>)
    requires PendingIsValue(st)
    requires qs != []
    ensures ApplyChanges(st, qs).value == qs[|qs| - 1]
    ensures ApplyChanges(st, qs).pendingQuery.Some? ==> ApplyChanges(st, qs).pendingQuery == Some(qs[|qs| - 1])
    decreases |qs|
  {
    var next := QueryChanged(st, qs[0]);
    QueryChangeClearsError(st, qs[0]);
    if |qs| > 1 {
      DebounceKeepsLast(next, qs[1..]);
      assert qs[1..][|qs| - 2] == qs[|qs| - 1];
    }
  }

  /** `search(query)` up to its first `await`: the short-query exit, then the
      abort of the previous request, then the cache check on the lower-cased
      query, then the start of a lookup. */
  function Searched(st: SessionState, query: string, cache: seq<ResultCache.Entry>): (SessionState, SearchStep) {
    // `!query || query.length < MIN_QUERY_LENGTH`: the empty string is short
    // too, and the length counts UTF-16 code units
    if Utf16Length(query) < MinQueryLength then
      (st.(results := [], isOpen := false), ShortQuery)
    else
      var aborted := st.(controller := AbortController(st.controller));
      var hit := ResultCache.Lookup(cache, ToLower(query));
      if hit.Some? then
        (aborted.(results := hit.value, isOpen := true), CacheHit)
      else
        (aborted.(isLoading := true,
                  controller := Some(Controller(st.nextRequestId, query, false)),
                  nextRequestId := st.nextRequestId + 1),
         Fetching(st.nextRequestId))
  }

  /** A query shorter than two code units empties the results and closes the
      list, and nothing else: no abort, no cache read, no loading. */
  lemma SearchShortQuery(st: SessionState, query: string, cache: seq<ResultCache.Entry>)
    requires Utf16Length(query) < MinQueryLength
    ensures Searched(st, query, cache).1 == ShortQuery
    ensures Searched(st, query, cache).0 == st.(results := [], isOpen := false)
  {
  }

  /** A cache hit for the lower-cased query shows the cached list and opens
      it without starting a lookup; the selection and loading flag stay, and
      the previous request is aborted. */
  lemma SearchCacheHit(st: SessionState, query: string, cache: seq<ResultCache.Entry>)
    requires Utf16Length(query) >= MinQueryLength
    requires ResultCache.Lookup(cache, ToLower(query)).Some?
    ensures Searched(st, query, cache).1 == CacheHit
    ensures Searched(st, query, cache).0.results == ResultCache.Lookup(cache, ToLower(query)).value
    ensures Searched(st, query, cache).0.isOpen
    ensures Searched(st, query, cache).0.selectedIndex == st.selectedIndex
    ensures Searched(st, query, cache).0.isLoading == st.isLoading
    ensures Searched(st, query, cache).0.nextRequestId == st.nextRequestId
    ensures forall id :: !IsLive(Searched(st, query, cache).0, id)
  {
  }

  /** One character outside the Basic Multilingual Plane is two code units,
      so it is long enough to search. */
  lemma AstralQueryIsSearched(st: SessionState, cache: seq<ResultCache.Entry>)
    ensures Searched(st, "\U{1F1E8}", cache).1 != ShortQuery
  {
    assert Utf16Length("\U{1F1E8}") == 2;
  }

  /** Queries that differ only in ASCII case take the same path: both short,
      both hits on the same entry, or both misses. They end in the same state,
      except that a started lookup records the query as typed. */
  lemma SearchIgnoresCase(st: SessionState, q1: string, q2: string, cache: seq<ResultCache.Entry>)
    requires ToLower(q1) == ToLower(q2)
    ensures Searched(st, q1, cache).1 == Searched(st, q2, cache).1
    ensures Searched(st, q1, cache).0.(controller := None) == Searched(st, q2, cache).0.(controller := None)
    ensures Searched(st, q1, cache).1.Fetching? ==>
      Searched(st, q1, cache).0.controller == Some(Controller(st.nextRequestId, q1, false)) &&
      Searched(st, q2, cache).0.controller == Some(Controller(st.nextRequestId, q2, false))
    ensures !Searched(st, q1, cache).1.Fetching? ==> Searched(st, q1, cache) == Searched(st, q2, cache)
  {
    Utf16LengthToLower(q1);
    Utf16LengthToLower(q2);
  }

  /** On a miss a lookup starts: loading is on and the new request is the
      only live one. */
  lemma SearchMiss(st: SessionState, query: string, cache: seq<ResultCache.Entry>)
    requires Utf16Length(query) >= MinQueryLength
    requires ResultCache.Lookup(cache, ToLower(query)).None?
    ensures Searched(st, query, cache).1 == Fetching(st.nextRequestId)
    ensures Searched(st, query, cache).0.isLoading
    ensures IsLive(Searched(st, query, cache).0, st.nextRequestId)
    ensures forall id :: id != st.nextRequestId ==> !IsLive(Searched(st, query, cache).0, id)
    ensures Searched(st, query, cache).0.results == st.results
    ensures Searched(st, query, cache).0.isOpen == st.isOpen
  {
  }

  /** The continuation of a lookup for `query` (lines 96-110): results on
      success, the error path on failure, nothing on abort; in every case a
      3000 ms loading-clear timer is armed. */
  function Settled(st: SessionState, outcome: FetchOutcome): SessionState {
    var st1 := st.(pendingLoadingClears := st.pendingLoadingClears + 1);
    match outcome
    case Success(data) => st1.(results := RequiredResults(data), isOpen := true, selectedIndex := -1)
    case Failure => st1.(error := Some(FetchFailedMessage), results := [], isOpen := false)
    case Aborted => st1
  }

  /** The cache write of a settled lookup: only a success writes, under the
      lower-cased query. */
  function SettledCache(cache: seq<ResultCache.Entry>, query: string, outcome: FetchOutcome): seq<ResultCache.Entry> {
    if outcome.Success? then ResultCache.SetCache(cache, ToLower(query), RequiredResults(outcome.data)) else cache
  }

  /** A success shows the filtered response, opens the list even when it is
      empty, clears the selection and caches the list under the lower-cased
      query. */
  lemma SettledSuccess(st: SessionState, cache: seq<ResultCache.Entry>, query: string, data: Json)
    ensures Settled(st, Success(data)).results == RequiredResults(data)
    ensures |Settled(st, Success(data)).results| <= MaxResults
    ensures Settled(st, Success(data)).isOpen
    ensures Settled(st, Success(data)).selectedIndex == -1
    ensures Settled(st, Success(data)).error == st.error
    ensures ResultCache.Lookup(SettledCache(cache, query, Success(data)), ToLower(query)) == Some(RequiredResults(data))
  {
    ResultCache.PutProperties(ResultCache.EvictOldest(cache), ToLower(query), RequiredResults(data));
  }

  /** A failure shows the error, clears the results and closes the list; an
      abort changes nothing but the timers; neither writes the cache. */
  lemma SettledFailureOrAbort(st: SessionState, cache: seq<ResultCache.Entry>, query: string)
    ensures Settled(st, Failure).error == Some(FetchFailedMessage)
    ensures Settled(st, Failure).results == [] && !Settled(st, Failure).isOpen
    ensures Settled(st, Failure).selectedIndex == st.selectedIndex
    ensures Settled(st, Aborted) == st.(pendingLoadingClears := st.pendingLoadingClears + 1)
    ensures SettledCache(cache, query, Failure) == cache && SettledCache(cache, query, Aborted) == cache
  {
  }

  /** `selectListItem(item)`: the item's `name.official` becomes the value
      (see README for non-string values), the list closes and the selection
      resets. */
  function SelectItem(st: SessionState, item: Json): SessionState {
    var st1 := match GetValueByPath(item, RequiredDataPath)
      case Str(s) => WithValue(st, s)
      case _ => st;
    st1.(isOpen := false, selectedIndex := -1)
  }

  /** `handleKeyDown`: the new state and whether `preventDefault` was called. */
  function KeyDown(st: SessionState, key: Key): (SessionState, bool) {
    if !st.isOpen then (st, false)
    else
      match key
      case Tab => (st.(isOpen := false, selectedIndex := -1), false)
      case Other(_) => (st, false)
      case Enter =>
        var i := st.selectedIndex;
        if 0 <= i < |st.results| && Truthy(st.results[i]) then (SelectItem(st, st.results[i]), true)
        else (st, true)
      case ArrowDown => (st.(selectedIndex := ArrowDownIndex(st.selectedIndex, |st.results|)), true)
      case ArrowUp => (st.(selectedIndex := ArrowUpIndex(st.selectedIndex, |st.results|)), true)
      case Escape => (st.(selectedIndex := -1, isOpen := false), true)
  }

  /** While the list is closed no key changes anything or is intercepted. */
  lemma KeyDownClosed(st: SessionState, key: Key)
    requires !st.isOpen
    ensures KeyDown(st, key) == (st, false)
  {
  }

  /** On an open, non-empty list with a selected item, the arrows wrap
      around and stay on an item. */
  lemma KeyDownArrowsWrap(st: SessionState)
    requires st.isOpen && 0 <= st.selectedIndex < |st.results|
    ensures var n := |st.results|;
      && 0 <= KeyDown(st, ArrowDown).0.selectedIndex < n
      && 0 <= KeyDown(st, ArrowUp).0.selectedIndex < n
      && (st.selectedIndex == n - 1 ==> KeyDown(st, ArrowDown).0.selectedIndex == 0)
      && (st.selectedIndex == 0 ==> KeyDown(st, ArrowUp).0.selectedIndex == n - 1)
    ensures KeyDown(st, ArrowDown).1 && KeyDown(st, ArrowUp).1
  {
  }

  /** Tab and Escape close the list and clear the selection; Tab lets the
      browser move focus, Escape is intercepted. Other keys pass through. */
  lemma KeyDownCloseKeys(st: SessionState, name: string)
    requires st.isOpen
    ensures KeyDown(st, Tab) == (st.(isOpen := false, selectedIndex := -1), false)
    ensures KeyDown(st, Escape) == (st.(isOpen := false, selectedIndex := -1), true)
    ensures KeyDown(st, Other(name)) == (st, false)
  {
  }

  /** Enter on a selected item commits its `name.official` text as the
      value, closes the list and clears the selection; Enter without a
      selected item changes nothing. */
  lemma KeyDownEnter(st: SessionState, s: string)
    requires st.isOpen
    ensures 0 <= st.selectedIndex < |st.results| && GetValueByPath(st.results[st.selectedIndex], RequiredDataPath) == Str(s) ==>
      var r := KeyDown(st, Enter).0;
      r.value == s && !r.isOpen && r.selectedIndex == -1 && r.results == st.results
    ensures !(0 <= st.selectedIndex < |st.results|) ==> KeyDown(st, Enter) == (st, true)
  {
    if 0 <= st.selectedIndex < |st.results| && GetValueByPath(st.results[st.selectedIndex], RequiredDataPath) == Str(s) {
      RequiredPathLookup(st.results[st.selectedIndex]);
    }
  }

  /** `handleInputFocus`: re-open a non-empty list without searching. */
  function Focused(st: SessionState): SessionState {
    if |st.results| > 0 then st.(isOpen := true) else st
  }

  /** `handleItemClick(item)`: the commit of `selectListItem`, then the
      input's `onFocus`. Pressing the mouse on an option takes focus from the
      input, so `inputRef.current.focus()` fires `handleInputFocus`, whose
      `setIsOpen(true)` is applied after `setIsOpen(false)`. */
  function ItemClicked(st: SessionState, i: nat): SessionState
    requires i < |st.results|
  {
    Focused(SelectItem(st, st.results[i]))
  }

  /** A click commits an item as Enter on it does, but the refocus leaves the
      list open, where Enter (the input already has focus) leaves it closed. */
  lemma ClickCommitsThenReopens(st: SessionState)
    requires st.isOpen && 0 <= st.selectedIndex < |st.results|
    requires Truthy(st.results[st.selectedIndex])
    ensures ItemClicked(st, st.selectedIndex) == KeyDown(st, Enter).0.(isOpen := true)
    ensures ItemClicked(st, st.selectedIndex).isOpen && !KeyDown(st, Enter).0.isOpen
  {
  }

  /** Every transition keeps the debounce slot holding the current value. */
  lemma TransitionsKeepPending(st: SessionState, v: string, key: Key, item: Json, query: string,
                               cache: seq<ResultCache.Entry>, outcome: FetchOutcome)
    requires PendingIsValue(st)
    ensures PendingIsValue(QueryChanged(st, v))
    ensures PendingIsValue(SelectItem(st, item))
    ensures PendingIsValue(KeyDown(st, key).0)
    ensures PendingIsValue(Searched(st, query, cache).0)
    ensures PendingIsValue(Settled(st, outcome))
    ensures PendingIsValue(Focused(st))
  {
  }

  // ---------------------------------------------------------------------
  // The component

  class Session {
    /** The process-wide cache the component reads and writes. */
    const cache: ResultCache.Cache

    var value: string
    var results: seq<Json>
    var isLoading: bool
    var error: Option<string>
    var isOpen: bool
    var selectedIndex: int
    var pendingQuery: Option<string>
    var controller: Option<Controller>
    var nextRequestId: nat
    var pendingLoadingClears: nat

    /** Every request ever aborted through its controller. */
    ghost var abortedRequests: set<nat>
    /** Every request whose lookup has settled. */
    ghost var settledRequests: set<nat>

    function State(): SessionState
      reads this
    {
      SessionState(value, results, isLoading, error, isOpen, selectedIndex,
                   pendingQuery, controller, nextRequestId, pendingLoadingClears)
    }

    /** Every request but the current controller's has been aborted, the live
        request has not, only issued requests are aborted or settled, and the
        debounce slot only ever holds the current value. */
    ghost predicate Valid()
      reads this, cache
    {
      && cache.Valid()
      && (controller.Some? ==> controller.value.id < nextRequestId)
      && (forall id :: 0 <= id < nextRequestId ==> id in abortedRequests || IsLive(State(), id))
      && (forall id :: id in abortedRequests ==> id < nextRequestId)
      && (forall id :: IsLive(State(), id) ==> id !in abortedRequests)
      && (forall id :: id in settledRequests ==> id < nextRequestId)
      && PendingIsValue(State())
    }

    constructor (cache: ResultCache.Cache)
      requires cache.Valid()
      ensures Valid()
      ensures this.cache == cache && State() == InitialState()
      ensures abortedRequests == {} && settledRequests == {}
    {
      this.cache := cache;
      value, results, isLoading, error := "", [], false, Some("");
      isOpen, selectedIndex := false, -1;
      pendingQuery := Some("");
      controller, nextRequestId, pendingLoadingClears := None, 0, 0;
      abortedRequests, settledRequests := {}, {};
    }

    /** `abortControllerRef.current?.abort()`. */
    method AbortCurrent()
      requires Valid()
      modifies this
      ensures Valid()
      ensures State() == old(State()).(controller := AbortController(old(controller)))
      ensures abortedRequests == old(abortedRequests) + (if old(controller).Some? then {old(controller).value.id} else {})
      ensures settledRequests == old(settledRequests)
    {
      if controller.Some? {
        abortedRequests := abortedRequests + {controller.value.id};
        controller := Some(controller.value.(aborted := true));
      }
    }

    /** `setValue(v)` and, when the value changes, the `[value]` effect. */
    method SetValue(v: string)
      requires Valid()
      modifies this
      ensures Valid()
      ensures State() == WithValue(old(State()), v)
    {
      if v != value {
        pendingQuery := None;
        AbortCurrent();
        value := v;
        pendingQuery := Some(v);
      }
    }

    method HandleInputQueryChange(v: string)
      requires Valid()
      modifies this
      ensures Valid()
      ensures State() == QueryChanged(old(State()), v)
    {
      error := None;
      SetValue(v);
    }

    /** The input's `onChange` with the raw text. */
    method InputChanged(raw: string)
      requires Valid()
      modifies this
      ensures Valid()
      ensures State() == Edited(old(State()), raw)
    {
      HandleInputQueryChange(Trim(raw));
    }

    /** `search(query)` up to its first `await`. */
    method Search(query: string) returns (step: SearchStep)
      requires Valid()
      modifies this
      ensures Valid()
      ensures (State(), step) == Searched(old(State()), query, cache.entries)
      ensures settledRequests == old(settledRequests)
      ensures step.Fetching? ==> step.id !in settledRequests
    {
      if Utf16Length(query) < MinQueryLength {
        results := [];
        isOpen := false;
        return ShortQuery;
      }
      AbortCurrent();
      var key := ToLower(query);
      if cache.Has(key) {
        results := cache.Get(key).value;
        isOpen := true;
        return CacheHit;
      }
      step := StartLookup(query);
    }

    /** The miss path of `search`: loading on and a fresh controller for a
        new request, once the previous one has been aborted. */
    method StartLookup(query: string) returns (step: SearchStep)
      requires Valid()
      requires forall id :: !IsLive(State(), id)
      modifies this
      ensures Valid()
      ensures State() == old(State()).(isLoading := true,
                                       controller := Some(Controller(old(nextRequestId), query, false)),
                                       nextRequestId := old(nextRequestId) + 1)
      ensures step == Fetching(old(nextRequestId))
      ensures settledRequests == old(settledRequests)
      ensures step.id !in settledRequests
    {
      isLoading := true;
      controller := Some(Controller(nextRequestId, query, false));
      step := Fetching(nextRequestId);
      nextRequestId := nextRequestId + 1;
    }

    /** The debounce timer elapses and searches for the value it was armed
        with, which is the current value. */
    method DebounceElapsed() returns (step: SearchStep)
      requires Valid() && pendingQuery.Some?
      modifies this
      ensures Valid()
      ensures (State(), step) == Searched(old(State()).(pendingQuery := None), old(value), cache.entries)
      ensures settledRequests == old(settledRequests)
      ensures step.Fetching? ==> step.id !in settledRequests
    {
      var query := pendingQuery.value;
      pendingQuery := None;
      step := Search(query);
    }

    /** The lookup `id` settles. An aborted request can only settle with
        `AbortError`, which is how `fetch` treats an aborted signal; so only
        the live request, the one the latest search started, can change the
        results, the list, the error or the cache. Each lookup settles once. */
    method Settle(id: nat, outcome: FetchOutcome)
      requires Valid()
      requires id < nextRequestId && id !in settledRequests
      requires id in abortedRequests ==> outcome.Aborted?
      modifies this, cache
      ensures Valid()
      ensures !IsLive(old(State()), id) ==>
        State() == old(State()).(pendingLoadingClears := old(pendingLoadingClears) + 1) &&
        cache.entries == old(cache.entries)
      ensures IsLive(old(State()), id) ==>
        State() == Settled(old(State()), outcome) &&
        cache.entries == SettledCache(old(cache.entries), old(controller).value.query, outcome)
      ensures settledRequests == old(settledRequests) + {id}
    {
      if outcome.Success? {
        var query := controller.value.query;
        var required := RequiredResults(outcome.data);
        cache.Set(ToLower(query), required);
        results := required;
        isOpen := true;
        selectedIndex := -1;
      } else if outcome.Failure? {
        error := Some(FetchFailedMessage);
        results := [];
        isOpen := false;
      }
      pendingLoadingClears := pendingLoadingClears + 1;
      settledRequests := settledRequests + {id};
    }

    /** One armed loading-clear timer elapses. */
    method LoadingClearElapsed()
      requires Valid() && pendingLoadingClears > 0
      modifies this
      ensures Valid()
      ensures State() == old(State()).(isLoading := false, pendingLoadingClears := old(pendingLoadingClears) - 1)
    {
      isLoading := false;
      pendingLoadingClears := pendingLoadingClears - 1;
    }

    method SelectListItem(item: Json)
      requires Valid()
      modifies this
      ensures Valid()
      ensures State() == SelectItem(old(State()), item)
    {
      var text := GetValueByPath(item, RequiredDataPath);
      if text.Str? {
        SetValue(text.s);
      }
      isOpen := false;
      selectedIndex := -1;
    }

    method HandleKeyDown(key: Key) returns (defaultPrevented: bool)
      requires Valid()
      modifies this
      ensures Valid()
      ensures (State(), defaultPrevented) == KeyDown(old(State()), key)
    {
      defaultPrevented := false;
      if !isOpen {
        return;
      }
      if key == Tab {
        isOpen := false;
        selectedIndex := -1;
        return;
      }
      if key.Other? {
        return;
      }
      defaultPrevented := true;
      match key
      case Enter =>
        if 0 <= selectedIndex < |results| && Truthy(results[selectedIndex]) {
          SelectListItem(results[selectedIndex]);
        }
      case ArrowDown =>
        selectedIndex := ArrowDownIndex(selectedIndex, |results|);
      case ArrowUp =>
        selectedIndex := ArrowUpIndex(selectedIndex, |results|);
      case Escape =>
        selectedIndex := -1;
        isOpen := false;
    }

    /** A click on a rendered option; options are rendered only while the
        list is open and non-empty. The commit's refocus of the input runs
        the focus handler. */
    method HandleItemClick(i: nat)
      requires Valid() && isOpen && i < |results|
      modifies this
      ensures Valid()
      ensures State() == ItemClicked(old(State()), i)
      ensures isOpen
    {
      SelectListItem(results[i]);
      HandleInputFocus();
    }

    method HandleInputFocus()
      requires Valid()
      modifies this
      ensures Valid()
      ensures State() == Focused(old(State()))
    {
      if |results| > 0 {
        isOpen := true;
      }
    }

    /** Unmount: the effect cleanup clears the debounce timer and aborts the
        outstanding request, so neither can change the state afterwards. */
    method Unmount()
      requires Valid()
      modifies this
      ensures Valid()
      ensures State() == old(State()).(pendingQuery := None, controller := AbortController(old(controller)))
      ensures forall id :: !IsLive(State(), id)
    {
      pendingQuery := None;
      AbortCurrent();
    }
  }

  /** A search followed by the settling of the lookup it started: a success
      shows and caches the filtered response, a failure shows the error. */
  method SearchThenSettle(s: Session, query: string, outcome: FetchOutcome) returns (step: SearchStep)
    requires s.Valid()
    modifies s, s.cache
    ensures s.Valid()
    ensures step.Fetching? && outcome.Success? ==>
      && s.results == RequiredResults(outcome.data) && s.isOpen && s.selectedIndex == -1
      && s.cache.Get(ToLower(query)) == Some(RequiredResults(outcome.data))
    ensures step.Fetching? && outcome.Failure? ==>
      s.error == Some(FetchFailedMessage) && s.results == [] && !s.isOpen
  {
    step := s.Search(query);
    if step.Fetching? {
      ghost var entries := s.cache.entries;
      s.Settle(step.id, outcome);
      if outcome.Success? {
        SettledSuccess(s.State(), entries, query, outcome.data);
      }
    }
  }
}

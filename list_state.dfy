/**
 * The shared list state (composables/useLocalitiesListState.ts): three cells in an app-wide
 * keyed store, each installed with its default by the first lookup of its key and returned as
 * stored by every later lookup. The store is a map from key to the stored value.
 */
module ListState {

  const SEARCH_KEY: string := "localities:search"
  const PAGE_KEY: string := "localities:page"
  const PAGE_SIZE_KEY: string := "localities:pageSize"

  /** A stored value: the search text or a number. */
  datatype StateValue = Text(s: string) | Number(n: int)

  const DEFAULT_SEARCH: StateValue := Text("")
  const DEFAULT_PAGE: StateValue := Number(1)
  const DEFAULT_PAGE_SIZE: StateValue := Number(20)

  type Store = map<string, StateValue>

  /** The values of the three cells after `useLocalitiesListState()`. */
  datatype ListState = ListState(search: StateValue, page: StateValue, pageSize: StateValue)

  /** `useState(key, init)`: the stored value if `key` is present, otherwise `init`, which is then stored. */
  function GetOrCreate(store: Store, key: string, init: StateValue): (r: (Store, StateValue))
    ensures key in r.0 && r.1 == r.0[key]
    ensures key in store ==> r.0 == store
    ensures key !in store ==> r.0 == store[key := init] && r.1 == init
  {
    if key in store then (store, store[key]) else (store[key := init], init)
  }

  /** `useLocalitiesListState()`: three lookups, one per key, each with its default. */
  function UseListState(store: Store): (r: (Store, ListState))
    ensures SEARCH_KEY in r.0 && PAGE_KEY in r.0 && PAGE_SIZE_KEY in r.0
    ensures r.1 == ListState(r.0[SEARCH_KEY], r.0[PAGE_KEY], r.0[PAGE_SIZE_KEY])
    ensures r.0.Keys == store.Keys + {SEARCH_KEY, PAGE_KEY, PAGE_SIZE_KEY}
    ensures forall k :: k in store ==> r.0[k] == store[k]
  {
    var (s1, search) := GetOrCreate(store, SEARCH_KEY, DEFAULT_SEARCH);
    var (s2, page) := GetOrCreate(s1, PAGE_KEY, DEFAULT_PAGE);
    var (s3, pageSize) := GetOrCreate(s2, PAGE_SIZE_KEY, DEFAULT_PAGE_SIZE);
    (s3, ListState(search, page, pageSize))
  }

  /** Whether `v` has the type of the cell under `key`: `useState<string>` for search, `useState<number>` for the others. */
  predicate Fits(key: string, v: StateValue) {
    && (key == SEARCH_KEY ==> v.Text?)
    && (key == PAGE_KEY || key == PAGE_SIZE_KEY ==> v.Number?)
  }

  /** Every entry under one of the three keys has that cell's type. */
  predicate WellTyped(store: Store) {
    forall k :: k in store ==> Fits(k, store[k])
  }

  /** The call keeps the store well typed, so the search is text and the page and page size are numbers. */
  lemma UseListStateKeepsWellTyped(store: Store)
    requires WellTyped(store)
    ensures var (s1, st) := UseListState(store);
      WellTyped(s1) && st.search.Text? && st.page.Number? && st.pageSize.Number?
  {
    KeysDistinct();
    var (s1, st) := UseListState(store);
    assert Fits(SEARCH_KEY, s1[SEARCH_KEY]) && Fits(PAGE_KEY, s1[PAGE_KEY]) && Fits(PAGE_SIZE_KEY, s1[PAGE_SIZE_KEY]);
  }

  /** The value a cell has after the call: its stored value, or its default when it was absent. */
  function StoredOr(store: Store, key: string, default: StateValue): StateValue {
    if key in store then store[key] else default
  }

  /** Absent cells get `""`, `1` and `20`; present cells keep what they hold. */
  lemma Defaults(store: Store)
    ensures UseListState(store).1 == ListState(
      StoredOr(store, SEARCH_KEY, Text("")),
      StoredOr(store, PAGE_KEY, Number(1)),
      StoredOr(store, PAGE_SIZE_KEY, Number(20)))
  {
  }

  /** The first call on an empty store yields the three defaults. */
  lemma FirstCall()
    ensures UseListState(map[]).1 == ListState(Text(""), Number(1), Number(20))
  {
  }

  /** The three keys are distinct, so each field is its own cell. */
  lemma KeysDistinct()
    ensures SEARCH_KEY != PAGE_KEY && PAGE_KEY != PAGE_SIZE_KEY && SEARCH_KEY != PAGE_SIZE_KEY
  {
    assert SEARCH_KEY[11] == 's' && PAGE_KEY[11] == 'p';
    assert |PAGE_KEY| != |PAGE_SIZE_KEY|;
  }

  /** A second call changes nothing in the store and reads back what the first call installed. */
  lemma SecondCallIsStable(store: Store)
    ensures var (s1, first) := UseListState(store); UseListState(s1) == (s1, first)
  {
  }

  /**
   * A write to one cell after the first call is seen by later calls, and the other two cells are
   * unchanged: the initialisers do not run again.
   */
  lemma WriteIsSeen(store: Store, key: string, v: StateValue)
    requires key in {SEARCH_KEY, PAGE_KEY, PAGE_SIZE_KEY}
    ensures var (s1, before) := UseListState(store);
      var (s2, after) := UseListState(s1[key := v]);
      && s2 == s1[key := v]
      && after.search == (if key == SEARCH_KEY then v else before.search)
      && after.page == (if key == PAGE_KEY then v else before.page)
      && after.pageSize == (if key == PAGE_SIZE_KEY then v else before.pageSize)
  {
    KeysDistinct();
    var (s1, before) := UseListState(store);
    assert s1[key := v].Keys == s1.Keys;
  }

  /** The app-wide store that `useState` reads and writes. */
  class StateRegistry {
    var store: Store

    constructor ()
      ensures store == map[]
    {
      store := map[];
    }

    /** `useState(key, init)`. */
    method UseState(key: string, init: StateValue) returns (v: StateValue)
      modifies this
      ensures (store, v) == GetOrCreate(old(store), key, init)
    {
      if key !in store {
        store := store[key := init];
      }
      v := store[key];
    }

    /**
     * `useLocalitiesListState()`. The result holds the values the three cells have at the call; each
     * cell is the store entry under its key, and a holder sees later writes by reading that key.
     */
    method UseLocalitiesListState() returns (s: ListState)
      modifies this
      ensures (store, s) == UseListState(old(store))
    {
      var search := UseState(SEARCH_KEY, DEFAULT_SEARCH);
      var page := UseState(PAGE_KEY, DEFAULT_PAGE);
      var pageSize := UseState(PAGE_SIZE_KEY, DEFAULT_PAGE_SIZE);
      s := ListState(search, page, pageSize);
    }

    /** A caller writing `.value` of the cell stored under `key`, with a value of the cell's type. */
    method Write(key: string, v: StateValue)
      requires Fits(key, v)
      modifies this
      ensures store == old(store)[key := v]
      ensures WellTyped(old(store)) ==> WellTyped(store)
    {
      store := store[key := v];
    }
  }

  /** Two consumers share the cells: a page written by one is read by the next. */
  method SharedAcrossConsumers() {
    var registry := new StateRegistry();
    var first := registry.UseLocalitiesListState();
    assert first == ListState(Text(""), Number(1), Number(20));
    registry.Write(PAGE_KEY, Number(3));
    var second := registry.UseLocalitiesListState();
    KeysDistinct();
    assert second == ListState(Text(""), Number(3), Number(20));
  }
}

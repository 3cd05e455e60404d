/** The selection and visibility store (src/store/useAssignmentStore.ts).
    Every operation is a transition from one `Store` to the next: the
    in-memory state together with the browser storage it writes through to.
    Stored values are kept abstract: what is written under a key is the value
    itself, not its JSON text. */
module AssignmentStore {
  import opened Wrappers
  import opened Seqs
  import opened Canvas

  /** Storage keys. */
  const ConfigKey: string := "canvas-api-config"
  const AssignmentsKey: string := "canvas-assignments"
  const ShowHiddenKey: string := "canvas-show-hidden"

  /** A value written to storage. */
  datatype Stored = StoredConfig(config: ApiConfig) | StoredAssignments(items: seq<AssignmentWithSelection>) | StoredFlag(flag: bool)

  /** The browser's key-value storage. */
  type Storage = map<string, Stored>

  /** What the store holds in memory. */
  datatype State = State(
    apiConfig: Option<ApiConfig>,
    assignments: seq<AssignmentWithSelection>,
    showHidden: bool,
    isLoading: bool,
    error: Option<string>)

  /** The in-memory state and the storage it persists to. */
  datatype Store = Store(state: State, storage: Storage)

  /** The state the store starts in and returns to when cleared. */
  const InitialState: State := State(None, [], false, false, None)

  // ---------------------------------------------------------------------
  // Per-record transformations of the assignment list
  // ---------------------------------------------------------------------

  /** `x` and `y` agree on everything but the selection flag. */
  predicate SameExceptSelection(x: AssignmentWithSelection, y: AssignmentWithSelection)
  {
    x.(isSelected := y.isSelected) == y
  }

  /** `x` and `y` agree on everything but the hidden flag. */
  predicate SameExceptHidden(x: AssignmentWithSelection, y: AssignmentWithSelection)
  {
    x.(isHidden := y.isHidden) == y
  }

  /** Flip the selection of every record with id `id`. */
  function ToggleSelected(xs: seq<AssignmentWithSelection>, id: int): (r: seq<AssignmentWithSelection>)
    ensures |r| == |xs|
    ensures forall i :: 0 <= i < |xs| ==> SameExceptSelection(xs[i], r[i])
    ensures forall i :: 0 <= i < |xs| && xs[i].Id() == id ==> r[i].isSelected == !xs[i].isSelected
    ensures forall i :: 0 <= i < |xs| && xs[i].Id() != id ==> r[i] == xs[i]
  {
    seq(|xs|, i requires 0 <= i < |xs| =>
      if xs[i].Id() == id then xs[i].(isSelected := !xs[i].isSelected) else xs[i])
  }

  /** Flip the hidden flag of every record with id `id`. */
  function ToggleHidden(xs: seq<AssignmentWithSelection>, id: int): (r: seq<AssignmentWithSelection>)
    ensures |r| == |xs|
    ensures forall i :: 0 <= i < |xs| ==> SameExceptHidden(xs[i], r[i])
    ensures forall i :: 0 <= i < |xs| && xs[i].Id() == id ==> r[i].isHidden == !xs[i].isHidden
    ensures forall i :: 0 <= i < |xs| && xs[i].Id() != id ==> r[i] == xs[i]
  {
    seq(|xs|, i requires 0 <= i < |xs| =>
      if xs[i].Id() == id then xs[i].(isHidden := !xs[i].isHidden) else xs[i])
  }

  /** Select every record that is on display: all of them when hidden records
      are shown, otherwise those that are not hidden. */
  function SelectVisible(xs: seq<AssignmentWithSelection>, showHidden: bool): (r: seq<AssignmentWithSelection>)
    ensures |r| == |xs|
    ensures forall i :: 0 <= i < |xs| ==> SameExceptSelection(xs[i], r[i])
    ensures forall i :: 0 <= i < |xs| && (showHidden || !xs[i].isHidden) ==> r[i].isSelected
    ensures forall i :: 0 <= i < |xs| && !showHidden && xs[i].isHidden ==> r[i] == xs[i]
  {
    seq(|xs|, i requires 0 <= i < |xs| =>
      xs[i].(isSelected := if showHidden || !xs[i].isHidden then true else xs[i].isSelected))
  }

  /** Clear the selection of every record, shown or hidden. */
  function DeselectEvery(xs: seq<AssignmentWithSelection>): (r: seq<AssignmentWithSelection>)
    ensures |r| == |xs|
    ensures forall i :: 0 <= i < |xs| ==> SameExceptSelection(xs[i], r[i]) && !r[i].isSelected
  {
    seq(|xs|, i requires 0 <= i < |xs| => xs[i].(isSelected := false))
  }

  // ---------------------------------------------------------------------
  // What storage restores
  // ---------------------------------------------------------------------

  /** The store rebuilt from storage when the application loads
      (`initializeStore`): each key that holds a value of its kind restores
      the matching field; the rest keep their initial values. */
  function Reload(storage: Storage): (st: State)
    ensures !st.isLoading && st.error == None
    ensures ConfigKey !in storage ==> st.apiConfig == None
    ensures AssignmentsKey !in storage ==> st.assignments == []
    ensures ShowHiddenKey !in storage ==> !st.showHidden
    ensures ConfigKey in storage && storage[ConfigKey].StoredConfig? ==> st.apiConfig == Some(storage[ConfigKey].config)
    ensures AssignmentsKey in storage && storage[AssignmentsKey].StoredAssignments? ==> st.assignments == storage[AssignmentsKey].items
    ensures ShowHiddenKey in storage && storage[ShowHiddenKey].StoredFlag? ==> st.showHidden == storage[ShowHiddenKey].flag
  {
    var config := if ConfigKey in storage && storage[ConfigKey].StoredConfig? then Some(storage[ConfigKey].config) else None;
    var items := if AssignmentsKey in storage && storage[AssignmentsKey].StoredAssignments? then storage[AssignmentsKey].items else [];
    var flag := if ShowHiddenKey in storage && storage[ShowHiddenKey].StoredFlag? then storage[ShowHiddenKey].flag else false;
    State(config, items, flag, false, None)
  }

  /** The fields that survive a reload agree. */
  predicate SamePersistent(a: State, b: State)
  {
    a.apiConfig == b.apiConfig && a.assignments == b.assignments && a.showHidden == b.showHidden
  }

  /** Storage is in step with memory: reloading it restores the configuration,
      the assignment list and the show-hidden flag currently held. */
  predicate Consistent(s: Store)
  {
    SamePersistent(Reload(s.storage), s.state)
  }

  /** The store as it is after loading from `storage`. */
  function Initialize(storage: Storage): (s: Store)
    ensures Consistent(s)
    ensures s.storage == storage
    ensures !s.state.isLoading && s.state.error == None
  {
    Store(Reload(storage), storage)
  }

  // ---------------------------------------------------------------------
  // Operations
  // ---------------------------------------------------------------------

  /** `setApiConfig`: installs the configuration and writes it under its key. */
  function SetApiConfig(s: Store, config: ApiConfig): (r: Store)
    ensures r.state.apiConfig == Some(config)
    ensures SamePersistent(r.state, s.state.(apiConfig := r.state.apiConfig))
    ensures r.state.isLoading == s.state.isLoading && r.state.error == s.state.error
    ensures r.storage == s.storage[ConfigKey := StoredConfig(config)]
    ensures Consistent(s) ==> Consistent(r)
  {
    Store(s.state.(apiConfig := Some(config)), s.storage[ConfigKey := StoredConfig(config)])
  }

  /** Install an assignment list in memory and write it through to storage;
      every operation that changes the list ends this way. */
  function WriteAssignments(s: Store, items: seq<AssignmentWithSelection>): (r: Store)
    ensures r.state.assignments == items
    ensures SamePersistent(r.state.(assignments := s.state.assignments), s.state)
    ensures r.state.isLoading == s.state.isLoading && r.state.error == s.state.error
    ensures r.storage == s.storage[AssignmentsKey := StoredAssignments(r.state.assignments)]
    ensures Consistent(s) ==> Consistent(r)
  {
    Store(s.state.(assignments := items), s.storage[AssignmentsKey := StoredAssignments(items)])
  }

  /** `setAssignments`: replaces the whole list. */
  function SetAssignments(s: Store, items: seq<AssignmentWithSelection>): (r: Store)
    ensures r.state.assignments == items
    ensures r.state.apiConfig == s.state.apiConfig && r.state.showHidden == s.state.showHidden
    ensures r.state.isLoading == s.state.isLoading && r.state.error == s.state.error
    ensures r.storage == s.storage[AssignmentsKey := StoredAssignments(r.state.assignments)]
    ensures Consistent(s) ==> Consistent(r)
  {
    WriteAssignments(s, items)
  }

  /** `toggleAssignmentSelection`: flips the selection of the records with id
      `id`, changes nothing else, and persists the new list. */
  function ToggleAssignmentSelection(s: Store, id: int): (r: Store)
    ensures |r.state.assignments| == |s.state.assignments|
    ensures forall i :: 0 <= i < |s.state.assignments| ==>
      && SameExceptSelection(s.state.assignments[i], r.state.assignments[i])
      && (r.state.assignments[i].isSelected != s.state.assignments[i].isSelected <==> s.state.assignments[i].Id() == id)
    ensures (forall i :: 0 <= i < |s.state.assignments| ==> s.state.assignments[i].Id() != id) ==> r.state.assignments == s.state.assignments
    ensures r.state.apiConfig == s.state.apiConfig && r.state.showHidden == s.state.showHidden
    ensures r.state.isLoading == s.state.isLoading && r.state.error == s.state.error
    ensures r.storage == s.storage[AssignmentsKey := StoredAssignments(r.state.assignments)]
    ensures Consistent(s) ==> Consistent(r)
  {
    var r := WriteAssignments(s, ToggleSelected(s.state.assignments, id));
    assert (forall i :: 0 <= i < |s.state.assignments| ==> s.state.assignments[i].Id() != id) ==> r.state.assignments == s.state.assignments;
    r
  }

  /** `selectAllAssignments`: selects what is on display; when hidden records
      are not shown they keep their selection. */
  function SelectAllAssignments(s: Store): (r: Store)
    ensures |r.state.assignments| == |s.state.assignments|
    ensures forall i :: 0 <= i < |s.state.assignments| ==> SameExceptSelection(s.state.assignments[i], r.state.assignments[i])
    ensures forall i :: 0 <= i < |s.state.assignments| && (s.state.showHidden || !s.state.assignments[i].isHidden) ==> r.state.assignments[i].isSelected
    ensures forall i :: 0 <= i < |s.state.assignments| && !s.state.showHidden && s.state.assignments[i].isHidden ==>
      r.state.assignments[i].isSelected == s.state.assignments[i].isSelected
    ensures r.state.apiConfig == s.state.apiConfig && r.state.showHidden == s.state.showHidden
    ensures r.state.isLoading == s.state.isLoading && r.state.error == s.state.error
    ensures r.storage == s.storage[AssignmentsKey := StoredAssignments(r.state.assignments)]
    ensures Consistent(s) ==> Consistent(r)
  {
    WriteAssignments(s, SelectVisible(s.state.assignments, s.state.showHidden))
  }

  /** `deselectAllAssignments`: clears every selection, whatever is shown. */
  function DeselectAllAssignments(s: Store): (r: Store)
    ensures |r.state.assignments| == |s.state.assignments|
    ensures forall i :: 0 <= i < |s.state.assignments| ==>
      SameExceptSelection(s.state.assignments[i], r.state.assignments[i]) && !r.state.assignments[i].isSelected
    ensures r.state.apiConfig == s.state.apiConfig && r.state.showHidden == s.state.showHidden
    ensures r.state.isLoading == s.state.isLoading && r.state.error == s.state.error
    ensures r.storage == s.storage[AssignmentsKey := StoredAssignments(r.state.assignments)]
    ensures Consistent(s) ==> Consistent(r)
  {
    WriteAssignments(s, DeselectEvery(s.state.assignments))
  }

  /** `toggleAssignmentVisibility`: flips the hidden flag of the records with
      id `id`; their classification and selection are untouched. */
  function ToggleAssignmentVisibility(s: Store, id: int): (r: Store)
    ensures |r.state.assignments| == |s.state.assignments|
    ensures forall i :: 0 <= i < |s.state.assignments| ==>
      && SameExceptHidden(s.state.assignments[i], r.state.assignments[i])
      && (r.state.assignments[i].isHidden != s.state.assignments[i].isHidden <==> s.state.assignments[i].Id() == id)
    ensures forall i :: 0 <= i < |s.state.assignments| ==>
      && r.state.assignments[i].isDueInClass == s.state.assignments[i].isDueInClass
      && r.state.assignments[i].isSelected == s.state.assignments[i].isSelected
    ensures r.state.apiConfig == s.state.apiConfig && r.state.showHidden == s.state.showHidden
    ensures r.state.isLoading == s.state.isLoading && r.state.error == s.state.error
    ensures r.storage == s.storage[AssignmentsKey := StoredAssignments(r.state.assignments)]
    ensures Consistent(s) ==> Consistent(r)
  {
    WriteAssignments(s, ToggleHidden(s.state.assignments, id))
  }

  /** `setShowHiddenAssignments`: changes only the display flag and writes it
      under its key; no record's hidden flag changes. */
  function SetShowHiddenAssignments(s: Store, show: bool): (r: Store)
    ensures r.state.showHidden == show
    ensures r.state.assignments == s.state.assignments && r.state.apiConfig == s.state.apiConfig
    ensures r.state.isLoading == s.state.isLoading && r.state.error == s.state.error
    ensures r.storage == s.storage[ShowHiddenKey := StoredFlag(show)]
    ensures Consistent(s) ==> Consistent(r)
  {
    Store(s.state.(showHidden := show), s.storage[ShowHiddenKey := StoredFlag(show)])
  }

  /** `setIsLoading`: memory only. */
  function SetIsLoading(s: Store, loading: bool): (r: Store)
    ensures r.state.isLoading == loading
    ensures SamePersistent(r.state, s.state) && r.state.error == s.state.error
    ensures r.storage == s.storage
    ensures Consistent(s) ==> Consistent(r)
  {
    Store(s.state.(isLoading := loading), s.storage)
  }

  /** `setError`: memory only. */
  function SetError(s: Store, error: Option<string>): (r: Store)
    ensures r.state.error == error
    ensures SamePersistent(r.state, s.state) && r.state.isLoading == s.state.isLoading
    ensures r.storage == s.storage
    ensures Consistent(s) ==> Consistent(r)
  {
    Store(s.state.(error := error), s.storage)
  }

  /** `clearData`: back to the initial state, with the three keys removed and
      any other key left alone. */
  function ClearData(s: Store): (r: Store)
    ensures r.state == InitialState
    ensures ConfigKey !in r.storage && AssignmentsKey !in r.storage && ShowHiddenKey !in r.storage
    ensures forall k :: k in s.storage && k !in {ConfigKey, AssignmentsKey, ShowHiddenKey} ==> k in r.storage && r.storage[k] == s.storage[k]
    ensures r.storage.Keys <= s.storage.Keys
    ensures Consistent(r)
  {
    Store(InitialState, s.storage - {ConfigKey, AssignmentsKey, ShowHiddenKey})
  }

  // ---------------------------------------------------------------------
  // Queries
  // ---------------------------------------------------------------------

  predicate IsSelected(x: AssignmentWithSelection) { x.isSelected }
  predicate IsHidden(x: AssignmentWithSelection) { x.isHidden }
  predicate IsShown(x: AssignmentWithSelection) { !x.isHidden }

  /** `getSelectedAssignments`: the selected records, in list order. */
  function GetSelectedAssignments(st: State): (r: seq<AssignmentWithSelection>)
    ensures |r| <= |st.assignments|
    ensures forall i :: 0 <= i < |r| ==> r[i].isSelected && r[i] in st.assignments
    ensures forall i :: 0 <= i < |st.assignments| && st.assignments[i].isSelected ==> st.assignments[i] in r
    ensures forall x :: multiset(r)[x] == if x.isSelected then multiset(st.assignments)[x] else 0
  {
    FilterCounts(IsSelected, st.assignments);
    Filter(IsSelected, st.assignments)
  }

  /** `getVisibleAssignments`: every record when hidden ones are shown,
      otherwise the records that are not hidden. */
  function GetVisibleAssignments(st: State): (r: seq<AssignmentWithSelection>)
    ensures st.showHidden ==> r == st.assignments
    ensures !st.showHidden ==> forall i :: 0 <= i < |r| ==> !r[i].isHidden && r[i] in st.assignments
    ensures !st.showHidden ==> forall i :: 0 <= i < |st.assignments| && !st.assignments[i].isHidden ==> st.assignments[i] in r
    ensures !st.showHidden ==> forall x :: multiset(r)[x] == if x.isHidden then 0 else multiset(st.assignments)[x]
  {
    FilterCounts(IsShown, st.assignments);
    if st.showHidden then st.assignments else Filter(IsShown, st.assignments)
  }

  /** `getHiddenAssignments`: the hidden records, whether or not they are shown. */
  function GetHiddenAssignments(st: State): (r: seq<AssignmentWithSelection>)
    ensures forall i :: 0 <= i < |r| ==> r[i].isHidden && r[i] in st.assignments
    ensures forall i :: 0 <= i < |st.assignments| && st.assignments[i].isHidden ==> st.assignments[i] in r
    ensures forall x :: multiset(r)[x] == if x.isHidden then multiset(st.assignments)[x] else 0
  {
    FilterCounts(IsHidden, st.assignments);
    Filter(IsHidden, st.assignments)
  }

  /** The selected query keeps list order: on a list made of two parts it
      returns its answer on the first part followed by its answer on the second. */
  lemma SelectedKeepsListOrder(st: State, xs: seq<AssignmentWithSelection>, ys: seq<AssignmentWithSelection>)
    requires st.assignments == xs + ys
    ensures GetSelectedAssignments(st) == GetSelectedAssignments(st.(assignments := xs)) + GetSelectedAssignments(st.(assignments := ys))
  {
    FilterAppend(IsSelected, xs, ys);
  }

  /** The visible query keeps list order, whether or not hidden records are shown. */
  lemma VisibleKeepsListOrder(st: State, xs: seq<AssignmentWithSelection>, ys: seq<AssignmentWithSelection>)
    requires st.assignments == xs + ys
    ensures GetVisibleAssignments(st) == GetVisibleAssignments(st.(assignments := xs)) + GetVisibleAssignments(st.(assignments := ys))
  {
    FilterAppend(IsShown, xs, ys);
  }

  /** The hidden query keeps list order. */
  lemma HiddenKeepsListOrder(st: State, xs: seq<AssignmentWithSelection>, ys: seq<AssignmentWithSelection>)
    requires st.assignments == xs + ys
    ensures GetHiddenAssignments(st) == GetHiddenAssignments(st.(assignments := xs)) + GetHiddenAssignments(st.(assignments := ys))
  {
    FilterAppend(IsHidden, xs, ys);
  }

  // ---------------------------------------------------------------------
  // Properties across operations
  // ---------------------------------------------------------------------

  /** While hidden records are not shown, the visible and the hidden records
      split the list between them. */
  lemma VisibleAndHiddenSplit(st: State)
    requires !st.showHidden
    ensures |GetVisibleAssignments(st)| + |GetHiddenAssignments(st)| == |st.assignments|
  {
    FilterPartition(IsShown, IsHidden, st.assignments);
  }

  /** Toggling the selection of the same id twice restores the state, and
      storage again holds the original list. */
  lemma ToggleSelectionInvolution(s: Store, id: int)
    ensures ToggleAssignmentSelection(ToggleAssignmentSelection(s, id), id).state == s.state
    ensures ToggleAssignmentSelection(ToggleAssignmentSelection(s, id), id).storage[AssignmentsKey] == StoredAssignments(s.state.assignments)
  {
  }

  /** Toggling the visibility of the same id twice restores the state, and
      storage again holds the original list. */
  lemma ToggleVisibilityInvolution(s: Store, id: int)
    ensures ToggleAssignmentVisibility(ToggleAssignmentVisibility(s, id), id).state == s.state
    ensures ToggleAssignmentVisibility(ToggleAssignmentVisibility(s, id), id).storage[AssignmentsKey] == StoredAssignments(s.state.assignments)
  {
  }

  /** Deselecting everything twice is the same as doing it once. */
  lemma DeselectAllIdempotent(s: Store)
    ensures DeselectAllAssignments(DeselectAllAssignments(s)) == DeselectAllAssignments(s)
  {
    var once := DeselectAllAssignments(s);
    assert DeselectAllAssignments(once).state.assignments == once.state.assignments;
  }

  /** After deselecting everything nothing is selected. */
  lemma DeselectAllLeavesNothingSelected(s: Store)
    ensures GetSelectedAssignments(DeselectAllAssignments(s).state) == []
  {
    var r := DeselectAllAssignments(s).state;
    FilterNone(IsSelected, r.assignments);
  }

  /** Selecting all twice is the same as doing it once. */
  lemma SelectAllIdempotent(s: Store)
    ensures SelectAllAssignments(SelectAllAssignments(s)) == SelectAllAssignments(s)
  {
    var once := SelectAllAssignments(s);
    assert SelectAllAssignments(once).state.assignments == once.state.assignments;
  }

  /** After selecting all, every record on display is selected. */
  lemma SelectAllSelectsEverythingShown(s: Store)
    ensures forall x :: x in GetVisibleAssignments(SelectAllAssignments(s).state) ==> x.isSelected
  {
  }

  /** Selecting all while hidden records are not shown, then showing them and
      selecting all again, leaves every record selected. */
  lemma SelectAllAfterShowingHidden(s: Store)
    requires !s.state.showHidden
    ensures forall i :: 0 <= i < |s.state.assignments| && s.state.assignments[i].isHidden ==>
      SelectAllAssignments(s).state.assignments[i].isSelected == s.state.assignments[i].isSelected
    ensures forall x :: x in SelectAllAssignments(SetShowHiddenAssignments(SelectAllAssignments(s), true)).state.assignments ==> x.isSelected
  {
  }

  // ---------------------------------------------------------------------
  // Sequences of operations
  // ---------------------------------------------------------------------

  /** One call into the store. */
  datatype Action =
    | ConfigAction(config: ApiConfig)
    | ReplaceAction(items: seq<AssignmentWithSelection>)
    | ToggleSelectionAction(id: int)
    | SelectAllAction
    | DeselectAllAction
    | ToggleVisibilityAction(id: int)
    | ShowHiddenAction(show: bool)
    | LoadingAction(loading: bool)
    | ErrorAction(error: Option<string>)
    | ClearAction

  function Apply(s: Store, a: Action): Store
  {
    match a
    case ConfigAction(config) => SetApiConfig(s, config)
    case ReplaceAction(items) => SetAssignments(s, items)
    case ToggleSelectionAction(id) => ToggleAssignmentSelection(s, id)
    case SelectAllAction => SelectAllAssignments(s)
    case DeselectAllAction => DeselectAllAssignments(s)
    case ToggleVisibilityAction(id) => ToggleAssignmentVisibility(s, id)
    case ShowHiddenAction(show) => SetShowHiddenAssignments(s, show)
    case LoadingAction(loading) => SetIsLoading(s, loading)
    case ErrorAction(error) => SetError(s, error)
    case ClearAction => ClearData(s)
  }

  /** The store after the calls `actions`, in order. */
  function Run(s: Store, actions: seq<Action>): Store
    decreases |actions|
  {
    if |actions| == 0 then s else Run(Apply(s, actions[0]), actions[1..])
  }

  /** Whatever the calls, storage stays in step with memory: a reload at any
      point restores what was on screen. */
  lemma {:induction false} RunKeepsConsistent(s: Store, actions: seq<Action>)
    requires Consistent(s)
    ensures Consistent(Run(s, actions))
    decreases |actions|
  {
    if |actions| > 0 {
      RunKeepsConsistent(Apply(s, actions[0]), actions[1..]);
    }
  }

  /** A store loaded from any storage starts in step with it, so after any
      calls a reload restores what memory holds. */
  lemma RunFromLoadKeepsConsistent(storage: Storage, actions: seq<Action>)
    ensures Consistent(Run(Initialize(storage), actions))
  {
    RunKeepsConsistent(Initialize(storage), actions);
  }

  /** The records are the same, flag for flag, except possibly for the
      user's selection and visibility choices. */
  predicate SameRecords(xs: seq<AssignmentWithSelection>, ys: seq<AssignmentWithSelection>)
  {
    && |xs| == |ys|
    && forall i :: 0 <= i < |xs| ==>
      && xs[i].assignment == ys[i].assignment
      && xs[i].courseName == ys[i].courseName
      && xs[i].isDueInClass == ys[i].isDueInClass
  }

  /** The calls that act on individual records rather than the whole list. */
  predicate KeepsRecords(a: Action)
  {
    !a.ReplaceAction? && !a.ClearAction?
  }

  /** Classification is computed once: only replacing or clearing the list
      changes the records, so no run of selection and visibility calls ever
      alters an assignment or its due-in-class flag. */
  lemma {:induction false} RunKeepsRecords(s: Store, actions: seq<Action>)
    requires forall i :: 0 <= i < |actions| ==> KeepsRecords(actions[i])
    ensures SameRecords(Run(s, actions).state.assignments, s.state.assignments)
    decreases |actions|
  {
    if |actions| > 0 {
      var next := Apply(s, actions[0]);
      assert SameRecords(next.state.assignments, s.state.assignments);
      RunKeepsRecords(next, actions[1..]);
    }
  }
}

/** The toast notification store: a list reducer over four actions, the
    module-level state it is applied to, the set of toast ids whose removal
    timer is pending, and the id counter.

    A toast's `open`, `title` and `description` may be absent, as optional
    fields are in the TypeScript code; an action's id is `None` where that
    code passes `undefined`. */
module ToastStore {
  import opened Wrappers

  const TOAST_LIMIT: nat := 1
  const MAX_SAFE_INTEGER: nat := 9007199254740991

  datatype Toast = Toast(id: string, open: Option<bool>,
                         title: Option<string>, description: Option<string>)

  /** A partial toast. An outer `None` marks a key the update does not carry;
      `Some(None)` marks a key present with the value `undefined`, which the
      object spread copies like any other value and so clears the field. */
  datatype ToastPatch = ToastPatch(id: Option<string>, open: Option<Option<bool>>,
                                   title: Option<Option<string>>,
                                   description: Option<Option<string>>)

  datatype Action =
    | AddToast(toast: Toast)
    | UpdateToast(patch: ToastPatch)
    | DismissToast(toastId: Option<string>)
    | RemoveToast(toastId: Option<string>)

  datatype State = State(toasts: seq<Toast>)

  /** JavaScript truthiness of an optional string: present and non-empty. */
  predicate Truthy(id: Option<string>)
  {
    id.Some? && id.value != ""
  }

  /** `{ ...t, ...patch }`: every key the patch carries wins, even when its
      value is `undefined`. */
  function Merge(t: Toast, p: ToastPatch): (r: Toast)
    ensures p.id.None? || p.id == Some(t.id) ==> r.id == t.id
    ensures p.open.Some? ==> r.open == p.open.value
    ensures p.open.None? ==> r.open == t.open
    ensures p.title.Some? ==> r.title == p.title.value
    ensures p.title.None? ==> r.title == t.title
    ensures p.description.Some? ==> r.description == p.description.value
    ensures p.description.None? ==> r.description == t.description
  {
    Toast(if p.id.Some? then p.id.value else t.id,
          if p.open.Some? then p.open.value else t.open,
          if p.title.Some? then p.title.value else t.title,
          if p.description.Some? then p.description.value else t.description)
  }

  // ---------------------------------------------------------------------------
  // The list operations the reducer is made of

  /** The `map` of UPDATE_TOAST: merge the patch into the toasts with its id. */
  function UpdateMatching(toasts: seq<Toast>, p: ToastPatch): (r: seq<Toast>)
    ensures |r| == |toasts|
    ensures forall i :: 0 <= i < |toasts| ==>
              r[i] == if p.id == Some(toasts[i].id) then Merge(toasts[i], p) else toasts[i]
  {
    if toasts == [] then []
    else
      var t := toasts[0];
      [if p.id == Some(t.id) then Merge(t, p) else t] + UpdateMatching(toasts[1..], p)
  }

  /** The `map` of DISMISS_TOAST: close every toast when no id is given, and
      otherwise the toasts with that id. */
  function CloseMatching(toasts: seq<Toast>, toastId: Option<string>): (r: seq<Toast>)
    ensures |r| == |toasts|
    ensures forall i :: 0 <= i < |toasts| ==>
              r[i] == if toastId.None? || toastId == Some(toasts[i].id)
                      then toasts[i].(open := Some(false)) else toasts[i]
  {
    if toasts == [] then []
    else
      var t := toasts[0];
      [if toastId.None? || toastId == Some(t.id) then t.(open := Some(false)) else t]
        + CloseMatching(toasts[1..], toastId)
  }

  /** The `filter` of REMOVE_TOAST: drop the toasts with the given id. */
  function Without(toasts: seq<Toast>, id: string): (r: seq<Toast>)
    ensures |r| <= |toasts|
    ensures forall t :: t in r <==> t in toasts && t.id != id
  {
    if toasts == [] then []
    else (if toasts[0].id != id then [toasts[0]] else []) + Without(toasts[1..], id)
  }

  /** `toasts.map(t => t.id)`. */
  function Ids(toasts: seq<Toast>): (r: seq<string>)
    ensures |r| == |toasts|
    ensures forall i :: 0 <= i < |toasts| ==> r[i] == toasts[i].id
  {
    if toasts == [] then [] else [toasts[0].id] + Ids(toasts[1..])
  }

  // ---------------------------------------------------------------------------
  // The reducer

  function Reducer(state: State, action: Action): (r: State)
    ensures action.AddToast? ==> |r.toasts| == TOAST_LIMIT
    ensures !action.AddToast? ==> |r.toasts| <= |state.toasts|
  {
    match action
    case AddToast(t) =>
      var added := [t] + state.toasts;
      State(added[..if |added| < TOAST_LIMIT then |added| else TOAST_LIMIT])
    case UpdateToast(p) =>
      State(UpdateMatching(state.toasts, p))
    case DismissToast(toastId) =>
      State(CloseMatching(state.toasts, toastId))
    case RemoveToast(toastId) =>
      if Truthy(toastId) then State(Without(state.toasts, toastId.value)) else State([])
  }

  /** The ids DISMISS_TOAST hands to `addToRemoveQueue`, in order; the other
      actions queue nothing. */
  function QueuedIds(state: State, action: Action): (r: seq<string>)
    ensures !action.DismissToast? ==> r == []
    ensures forall id :: id in r ==>
              action.DismissToast? && (id in Ids(state.toasts) || Some(id) == action.toastId)
  {
    match action
    case DismissToast(toastId) =>
      if Truthy(toastId) then [toastId.value] else Ids(state.toasts)
    case _ => []
  }

  function Elements(ids: seq<string>): set<string>
  {
    set id | id in ids
  }

  // ---------------------------------------------------------------------------
  // Properties of the reducer

  /** ADD puts the new toast first and keeps at most TOAST_LIMIT toasts. */
  lemma AddPutsNewestFirst(state: State, t: Toast)
    ensures var r := Reducer(state, AddToast(t)).toasts;
            && |r| <= TOAST_LIMIT
            && r[0] == t
            && r == ([t] + state.toasts)[..1]
            && r == [t]
  {
  }

  /** No action takes the list over the limit; UPDATE and DISMISS keep its
      length and REMOVE never grows it. */
  lemma LengthBounds(state: State, action: Action)
    ensures |state.toasts| <= TOAST_LIMIT ==> |Reducer(state, action).toasts| <= TOAST_LIMIT
    ensures action.UpdateToast? || action.DismissToast? ==>
              |Reducer(state, action).toasts| == |state.toasts|
    ensures action.RemoveToast? ==> |Reducer(state, action).toasts| <= |state.toasts|
  {
  }

  /** UPDATE touches only the toasts whose id is the patch's id, and those
      keep their id. */
  lemma UpdateOnlyMatching(state: State, p: ToastPatch)
    ensures var r := Reducer(state, UpdateToast(p)).toasts;
            && |r| == |state.toasts|
            && (forall i :: 0 <= i < |r| ==> r[i].id == state.toasts[i].id)
            && (forall i :: 0 <= i < |r| && p.id != Some(state.toasts[i].id) ==> r[i] == state.toasts[i])
            && (forall i :: 0 <= i < |r| && p.id == Some(state.toasts[i].id) ==>
                  r[i] == Merge(state.toasts[i], p))
  {
  }

  /** DISMISS closes the toasts it names (all when no id is given) and
      changes nothing else: ids, order and the other fields stay. */
  lemma DismissClosesOnly(state: State, toastId: Option<string>)
    ensures var r := Reducer(state, DismissToast(toastId)).toasts;
            && |r| == |state.toasts|
            && (forall i :: 0 <= i < |r| ==>
                  r[i].id == state.toasts[i].id &&
                  r[i].title == state.toasts[i].title &&
                  r[i].description == state.toasts[i].description)
            && (forall i :: 0 <= i < |r| && (toastId.None? || toastId == Some(state.toasts[i].id)) ==>
                  r[i].open == Some(false))
            && (forall i :: 0 <= i < |r| && !(toastId.None? || toastId == Some(state.toasts[i].id)) ==>
                  r[i] == state.toasts[i])
  {
  }

  /** REMOVE with a truthy id drops exactly the toasts with that id and keeps
      the others in order; otherwise it clears the list. */
  lemma RemoveDropsOnly(state: State, toastId: Option<string>)
    ensures var r := Reducer(state, RemoveToast(toastId)).toasts;
            && (Truthy(toastId) ==> forall t :: t in r <==> t in state.toasts && t.id != toastId.value)
            && (Truthy(toastId) ==> r == Without(state.toasts, toastId.value))
            && (!Truthy(toastId) ==> r == [])
  {
  }

  /** Removing works element by element, so it keeps the survivors' order. */
  lemma {:induction false} WithoutConcat(a: seq<Toast>, b: seq<Toast>, id: string)
    ensures Without(a + b, id) == Without(a, id) + Without(b, id)
  {
    if a == [] {
      assert a + b == b;
    } else {
      assert (a + b)[0] == a[0];
      assert (a + b)[1..] == a[1..] + b;
      WithoutConcat(a[1..], b, id);
      var head := if a[0].id != id then [a[0]] else [];
      assert head + (Without(a[1..], id) + Without(b, id))
          == (head + Without(a[1..], id)) + Without(b, id);
    }
  }

  /** DISMISS queues its id when that id is truthy, and every toast's id
      otherwise; no other action queues anything. */
  lemma DismissQueues(state: State, action: Action)
    ensures !action.DismissToast? ==> QueuedIds(state, action) == []
    ensures action.DismissToast? && Truthy(action.toastId) ==>
              Elements(QueuedIds(state, action)) == {action.toastId.value}
    ensures action.DismissToast? && !Truthy(action.toastId) ==>
              Elements(QueuedIds(state, action)) == set t | t in state.toasts :: t.id
  {
  }

  /** An empty id is falsy: DISMISS with "" queues every toast but closes
      only the toasts whose id is "", and REMOVE with "" clears the list. */
  lemma EmptyIdQuirk(state: State)
    ensures QueuedIds(state, DismissToast(Some(""))) == Ids(state.toasts)
    ensures forall i :: 0 <= i < |state.toasts| && state.toasts[i].id != "" ==>
              Reducer(state, DismissToast(Some(""))).toasts[i] == state.toasts[i]
    ensures Reducer(state, RemoveToast(Some(""))).toasts == []
  {
  }

  // ---------------------------------------------------------------------------
  // Ids

  function DigitChar(d: nat): (c: char)
    requires d < 10
    ensures '0' <= c <= '9'
  {
    ('0' as int + d) as char
  }

  /** `n.toString()` for a non-negative integer: decimal, no leading zeros. */
  function Decimal(n: nat): (s: string)
    ensures 1 <= |s|
    ensures |s| == 1 <==> n < 10
    ensures forall i :: 0 <= i < |s| ==> '0' <= s[i] <= '9'
    decreases n
  {
    if n < 10 then [DigitChar(n)] else Decimal(n / 10) + [DigitChar(n % 10)]
  }

  /** Different numbers print differently. */
  lemma {:induction false} DecimalInjective(a: nat, b: nat)
    requires Decimal(a) == Decimal(b)
    ensures a == b
    decreases a
  {
    if 10 <= a {
      var sa, sb := Decimal(a), Decimal(b);
      assert sa[..|sa| - 1] == Decimal(a / 10);
      assert sb[..|sb| - 1] == Decimal(b / 10);
      assert DigitChar(a % 10) == sa[|sa| - 1] == sb[|sb| - 1] == DigitChar(b % 10);
      DecimalInjective(a / 10, b / 10);
    }
  }

  /** The id `genId` returns when the counter has reached `count`. */
  function IdFor(count: nat): (id: string)
    ensures Truthy(Some(id))
  {
    Decimal(count % MAX_SAFE_INTEGER)
  }

  lemma BelowModulus(n: nat)
    requires n < MAX_SAFE_INTEGER
    ensures IdFor(n) == Decimal(n)
  {
    assert n % MAX_SAFE_INTEGER == n;
  }

  /** Below MAX_SAFE_INTEGER, different counter values give different ids. */
  lemma IdsDistinct(a: nat, b: nat)
    requires a < MAX_SAFE_INTEGER && b < MAX_SAFE_INTEGER && a != b
    ensures IdFor(a) != IdFor(b)
  {
    BelowModulus(a);
    BelowModulus(b);
    if Decimal(a) == Decimal(b) {
      DecimalInjective(a, b);
    }
  }

  // ---------------------------------------------------------------------------
  // The store

  class Store {
    /** `memoryState`. */
    var state: State
    /** The ids that have an entry in `toastTimeouts`. */
    var pending: set<string>
    /** The id counter. */
    var count: nat

    ghost predicate Valid()
      reads this
    {
      |state.toasts| <= TOAST_LIMIT
    }

    constructor()
      ensures Valid() && state == State([]) && pending == {} && count == 0
    {
      state := State([]);
      pending := {};
      count := 0;
    }

    /** Starts a removal timer for `toastId` unless one is already pending;
        `scheduled` tells whether a timer was started. */
    method AddToRemoveQueue(toastId: string) returns (scheduled: bool)
      modifies this
      ensures scheduled <==> toastId !in old(pending)
      ensures pending == old(pending) + {toastId}
      ensures state == old(state) && count == old(count)
    {
      if toastId in pending {
        return false;
      }
      pending := pending + {toastId};
      return true;
    }

    method Dispatch(action: Action)
      requires Valid()
      modifies this
      ensures Valid()
      ensures state == Reducer(old(state), action)
      ensures pending == old(pending) + Elements(QueuedIds(old(state), action))
      ensures count == old(count)
    {
      LengthBounds(state, action);
      var ids := QueuedIds(state, action);
      var i := 0;
      while i < |ids|
        invariant 0 <= i <= |ids|
        invariant state == old(state) && count == old(count)
        invariant pending == old(pending) + Elements(ids[..i])
      {
        var _ := AddToRemoveQueue(ids[i]);
        assert Elements(ids[..i + 1]) == Elements(ids[..i]) + {ids[i]} by {
          assert ids[..i + 1] == ids[..i] + [ids[i]];
        }
        i := i + 1;
      }
      assert ids[..i] == ids;
      state := Reducer(state, action);
    }

    method GenId() returns (id: string)
      modifies this
      ensures count == old(count) + 1
      ensures id == IdFor(count)
      ensures state == old(state) && pending == old(pending)
    {
      count := count + 1;
      id := Decimal(count % MAX_SAFE_INTEGER);
    }

    /** `toast(props)`: a fresh id, and an ADD of an open toast carrying it. */
    method ShowToast(title: Option<string>, description: Option<string>) returns (id: string)
      requires Valid()
      modifies this
      ensures Valid()
      ensures id == IdFor(count) && count == old(count) + 1
      ensures state.toasts == [Toast(id, Some(true), title, description)]
      ensures pending == old(pending)
    {
      id := GenId();
      Dispatch(AddToast(Toast(id, Some(true), title, description)));
    }

    /** The `update` handle `toast` returns: the patch always carries the
        toast's own id. */
    method UpdateShown(id: string, patch: ToastPatch)
      requires Valid()
      modifies this
      ensures Valid()
      ensures state == Reducer(old(state), UpdateToast(patch.(id := Some(id))))
      ensures pending == old(pending) && count == old(count)
    {
      Dispatch(UpdateToast(patch.(id := Some(id))));
    }

    /** A removal timer for `toastId` fires: its entry is dropped and a
        REMOVE for that id is dispatched. */
    method TimerFired(toastId: string)
      requires Valid()
      requires toastId in pending
      modifies this
      ensures Valid()
      ensures pending == old(pending) - {toastId}
      ensures state == Reducer(old(state), RemoveToast(Some(toastId)))
      ensures count == old(count)
    {
      pending := pending - {toastId};
      Dispatch(RemoveToast(Some(toastId)));
    }
  }
}

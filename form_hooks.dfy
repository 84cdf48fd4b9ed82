/**
 * The `useForm` hook of lib/use-form.ts. Its `initialRef` cell is set once, at
 * mount, and afterwards only by `reset(initial)`. Re-rendering with a new
 * `initial` argument leaves it alone: `useRef` keeps its first value.
 */
module FormHookKeepInitial {
  import opened Optional
  import opened FormReducer

  class Form<V(==)> {
    /** `initialRef.current`. */
    var initialRef: Record<V>
    /** The reducer's state. */
    var state: FormState<V>
    /** The keys of the `update` setters, fixed at mount from the first initial record. */
    const setters: set<FieldId>

    /** The first render: the reducer starts at `{initial, values: initial, updates: {}}`. */
    constructor(initial: Record<V>)
      ensures initialRef == initial && setters == initial.Keys
      ensures state == FormState(initial, initial, map[])
    {
      initialRef := initial;
      state := FormState(initial, initial, map[]);
      setters := initial.Keys;
    }

    /** `update[id](value)` dispatches a 'set'. Only mount-time keys have a setter. */
    method Update(id: FieldId, value: SetArg<V>)
      requires id in setters
      modifies this`state
      ensures state == Reduce(old(state), Set(Some(id), value))
    {
      state := Reduce(state, Set(Some(id), value));
    }

    /** `reset(initial?)`. It stores `initial ?? initialRef.current` in the cell and dispatches 'reset' with it. */
    method Reset(initial: Option<Record<V>>)
      modifies this
      ensures initialRef == initial.GetOr(old(initialRef))
      ensures state == FormState(initialRef, initialRef, map[])
    {
      initialRef := initial.GetOr(initialRef);
      state := Reduce(state, FormReducer.Reset(initialRef));
    }

    /** `pristine`. It holds exactly when `partial` is empty. */
    function Pristine(): (r: bool)
      reads this
      ensures r <==> Partial() == map[]
    {
      FormReducer.Pristine(state)
    }

    /** `values`: the reducer's current values, keyed by field. */
    function Values(): (r: Record<V>)
      reads this
      ensures forall k :: Get(r, k) == Get(state.values, k)
      ensures r.Keys == state.values.Keys
    {
      state.values
    }

    /** `partial`: exactly the entries of `updates`. */
    function Partial(): (r: Record<V>)
      reads this
      ensures r.Keys == state.updates.Keys && forall k :: k in r ==> r[k] == state.updates[k]
    {
      state.updates
    }
  }

  /**
   * The test "reset should clear the form using variable initializer" run
   * against this hook. Mount with `before` and update the field. The test then
   * re-renders with a new initial record, but in this hook a re-render writes
   * neither the cell nor the state, so it has no step here. A plain `reset()`
   * then restores `before`, not the later record.
   */
  method ResetAfterRerender<V(==)>(before: Record<V>, id: FieldId, v: V)
    returns (values: Record<V>, pristine: bool)
    requires id in before
    ensures values == before && pristine
  {
    var form := new Form(before);
    form.Update(id, Literal(v));
    form.Reset(None);
    values, pristine := form.Values(), form.Pristine();
  }

  /** `reset(x)` installs `x` and later plain `reset()` calls reuse it. */
  method ResetReusesLastInitial<V(==)>(first: Record<V>, given: Record<V>, id: FieldId, v: V)
    returns (values: Record<V>, partial: Record<V>)
    requires id in first
    ensures values == given && partial == map[]
  {
    var form := new Form(first);
    form.Reset(Some(given));
    if id in form.setters {
      form.Update(id, Literal(v));
    }
    form.Reset(None);
    values, partial := form.Values(), form.Partial();
  }
}

/**
 * The `useForm` hook of lib/useForm.ts. Every render overwrites `initialRef`
 * with the current `initial` argument. `reset()` takes no argument and
 * dispatches 'reset' with whatever the cell holds.
 */
module FormHookLatestInitial {
  import opened Optional
  import opened FormReducer

  class Form<V(==)> {
    /** `initialRef.current`. */
    var initialRef: Record<V>
    /** The reducer's state. */
    var state: FormState<V>
    /** The keys of the `update` setters, fixed at mount from the first initial record. */
    const setters: set<FieldId>

    /** The first render. */
    constructor(initial: Record<V>)
      ensures initialRef == initial && setters == initial.Keys
      ensures state == FormState(initial, initial, map[])
    {
      initialRef := initial;
      state := FormState(initial, initial, map[]);
      setters := initial.Keys;
    }

    /** A later render with argument `initial`. It refreshes the cell and nothing else. */
    method Render(initial: Record<V>)
      modifies this`initialRef
      ensures initialRef == initial
    {
      initialRef := initial;
    }

    /** `update[id](value)` dispatches a 'set'. */
    method Update(id: FieldId, value: SetArg<V>)
      requires id in setters
      modifies this`state
      ensures state == Reduce(old(state), Set(Some(id), value))
    {
      state := Reduce(state, Set(Some(id), value));
    }

    /** `reset()` dispatches 'reset' with the latest `initial`. */
    method Reset()
      modifies this`state
      ensures state == FormState(initialRef, initialRef, map[])
    {
      state := Reduce(state, FormReducer.Reset(initialRef));
    }

    /** `pristine`. It holds exactly when `partial` is empty. */
    function Pristine(): (r: bool)
      reads this
      ensures r <==> Partial() == map[]
    {
      FormReducer.Pristine(state)
    }

    /** `values`: the reducer's current values, keyed by field. */
    function Values(): (r: Record<V>)
      reads this
      ensures forall k :: Get(r, k) == Get(state.values, k)
      ensures r.Keys == state.values.Keys
    {
      state.values
    }

    /** `partial`: exactly the entries of `updates`. */
    function Partial(): (r: Record<V>)
      reads this
      ensures r.Keys == state.updates.Keys && forall k :: k in r ==> r[k] == state.updates[k]
    {
      state.updates
    }
  }

  /**
   * The test "reset should clear the form using variable initializer" run
   * against this hook. Mount with `before`, update the field, and re-render
   * with `after`. `reset()` then restores `after`, and the form is pristine.
   */
  method ResetAfterRerender<V(==)>(before: Record<V>, after: Record<V>, id: FieldId, v: V)
    returns (values: Record<V>, pristine: bool)
    requires id in before
    ensures values == after && pristine
  {
    var form := new Form(before);
    form.Update(id, Literal(v));
    form.Render(after);
    form.Reset();
    values, pristine := form.Values(), form.Pristine();
  }
}

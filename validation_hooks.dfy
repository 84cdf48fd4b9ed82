/**
 * The `useValidation` hook of lib/use-validation.ts. On top of the shared
 * engine it has an `onValid` slot. 'validate-all' reveals every string result
 * and may store a continuation. The continuation runs the caller's callback
 * and then dispatches 'clear'. An effect runs whatever continuation is stored.
 */
module UseValidation {
  import opened Optional
  import opened ValidationReducer
  import opened ValidationEngine

  /** The caller's `onValid` callback. Its code is the caller's; only its identity matters here. */
  type Callback = nat

  /** The 'validate-all' case of lib/use-validation.ts: the new `errors` and the new `onValid`. */
  datatype Revealed = Revealed(errors: map<FieldId, string>, onValid: Option<Callback>)

  function ValidateAllCase(st: Status, onValid: Option<Callback>, callback: Option<Callback>): (r: Revealed)
    ensures r.errors == StringResults(st.validation)
    ensures !Invalid(st.validation) && callback.Some? ==> r.onValid == callback
    ensures Invalid(st.validation) || callback.None? ==>
              r.onValid == (if r.errors == st.errors then onValid else None)
  {
    var errors := StringResults(st.validation);
    var valid := !Invalid(st.validation);
    var continuation := if valid && callback.Some? then callback else None;
    if continuation.None? && errors == st.errors then Revealed(st.errors, onValid)
    else Revealed(errors, continuation)
  }

  /**
   * A continuation is stored only when no field is invalid. Registering one
   * while some field holds an error or a pending race does not keep it for later.
   */
  lemma ContinuationOnlyWhenValid(st: Status, callback: Callback)
    requires Invalid(st.validation)
    ensures ValidateAllCase(st, None, Some(callback)).onValid == None
  {
  }

  class Hook<V> {
    const engine: Engine<V>
    /** The stored continuation: run `onValid`, then dispatch 'clear'. */
    var onValid: Option<Callback>

    constructor(validators: map<FieldId, seq<Validator<V>>>)
      ensures fresh(engine) && engine.Valid() && engine.validators == validators
      ensures engine.validation == map[] && engine.errors == map[] && engine.cancel == map[]
      ensures onValid == None
    {
      engine := new Engine(validators);
      onValid := None;
    }

    /** `validate(onValid?)`. */
    method ValidateAll(callback: Option<Callback>)
      requires engine.Valid()
      modifies this`onValid, engine`errors
      ensures engine.Valid()
      ensures Revealed(engine.errors, onValid) == ValidateAllCase(old(engine.Snapshot()), old(onValid), callback)
    {
      var r := ValidateAllCase(engine.Snapshot(), onValid, callback);
      engine.errors, onValid := r.errors, r.onValid;
    }

    /** 'clear'. It drops the stored continuation. With none stored it returns the state itself. */
    method Clear()
      modifies this`onValid
      ensures onValid == None
    {
      if onValid.Some? {
        onValid := None;
      }
    }

    /**
     * `useEffect(() => void onValid?.(), [onValid])`. A stored continuation
     * calls back once and then dispatches 'clear'. `fired` is the callback that was called.
     */
    method RunOnValidEffect() returns (fired: Option<Callback>)
      modifies this`onValid
      ensures fired == old(onValid) && onValid == None
    {
      fired := onValid;
      if fired.Some? {
        Clear();
      }
    }
  }

  /**
   * Calling `validate(onValid)` on a form with no invalid field makes the
   * effect call `onValid` once and then clear it. A second run of the effect
   * calls nothing.
   */
  method OnValidFiresOnce<V>(validators: map<FieldId, seq<Validator<V>>>, values: map<FieldId, V>, callback: Callback)
    returns (first: Option<Callback>, second: Option<Callback>)
    requires values.Keys <= validators.Keys
    requires forall id :: id in values ==>
               Classify(validators[id], values[id], id).error.None? && !Classify(validators[id], values[id], id).racing
    ensures first == Some(callback) && second == None
  {
    var hook := new Hook(validators);
    var started := hook.engine.Update(values);
    InvalidAfterUpdate(validators, values, map[], hook.engine.validation, hook.engine.cancel, started);
    hook.ValidateAll(Some(callback));
    first := hook.RunOnValidEffect();
    second := hook.RunOnValidEffect();
  }
}

/**
 * The `useValidation` hook of lib/validation.ts. It has no continuation and no
 * 'clear'. 'validate-all' reveals every string result and returns the state
 * itself when that changes nothing.
 */
module PlainValidation {
  import opened ValidationReducer
  import opened ValidationEngine

  class Hook<V> {
    const engine: Engine<V>

    constructor(validators: map<FieldId, seq<Validator<V>>>)
      ensures fresh(engine) && engine.Valid() && engine.validators == validators
      ensures engine.validation == map[] && engine.errors == map[] && engine.cancel == map[]
    {
      engine := new Engine(validators);
    }

    /** `validate()`. */
    method ValidateAll()
      requires engine.Valid()
      modifies engine`errors
      ensures engine.Valid()
      ensures engine.errors == StringResults(engine.validation)
    {
      var errors := StringResults(engine.validation);
      if errors != engine.errors {
        engine.errors := errors;
      }
    }
  }
}

/**
 * The validation reducer's state as an object. `validation` and `errors` are
 * replaced at each step, as the reducer returns fresh copies. `cancel` is one
 * map shared by every state version and written in place by 'update'. `next`
 * is the counter that names races.
 */
module ValidationEngine {
  import opened Optional
  import opened ValidationReducer

  class Engine<V> {
    /** The validator chains, taken from the first render only. */
    const validators: map<FieldId, seq<Validator<V>>>
    var validation: map<FieldId, Outcome>
    var errors: map<FieldId, string>
    var cancel: map<FieldId, Option<Token>>
    var next: Token

    /** Every race named in the state was drawn before `next`, so a token drawn later is fresh. */
    ghost predicate Valid()
      reads this
    {
      && (forall id :: id in validation && validation[id].Pending? ==> validation[id].race < next)
      && (forall id :: id in cancel && cancel[id].Some? ==> cancel[id].value < next)
    }

    /** The part of the state that the 'sync', 'validate' and 'validate-all' cases read and write. */
    function Snapshot(): Status
      reads this
    {
      Status(validation, errors)
    }

    /** The reducer's initial state: `{validators, errors: {}, validation: {}, cancel: {}}`. */
    constructor(validators: map<FieldId, seq<Validator<V>>>)
      ensures Valid() && this.validators == validators
      ensures validation == map[] && errors == map[] && cancel == map[]
    {
      this.validators := validators;
      validation, errors, cancel, next := map[], map[], map[], 0;
    }

    /**
     * `{type: 'update', values}`. `values` must name only fields with a chain:
     * `state.validators[id]` throws otherwise. The races it returns are the
     * `Promise.race([promise, cancel])` chains it starts. Each holds a fresh
     * token, and the counter never goes back, so a race cancelled here or
     * earlier never holds its slot again. `errors` is not touched.
     */
    method Update(values: map<FieldId, V>) returns (started: map<FieldId, Token>)
      requires Valid() && values.Keys <= validators.Keys
      modifies this
      ensures Valid() && errors == old(errors)
      ensures validation.Keys == values.Keys && started.Keys <= values.Keys
      ensures forall id :: id in values ==> Updated(validators, values, old(cancel), validation, cancel, started, id)
      ensures forall id :: id !in values ==> Slot(cancel, id) == Slot(old(cancel), id)
      ensures forall id :: id in started ==> old(next) <= started[id] < next
      ensures forall a, b :: a in started && b in started && a != b ==> started[a] != started[b]
      ensures old(next) <= next
      ensures forall id, t :: t < old(next) && Slot(old(cancel), id) != Some(t) ==> Slot(cancel, id) != Some(t)
    {
      var validation', cancel', started', next' := RunUpdate(validators, values, cancel, next);
      forall id | id in validation' && validation'[id].Pending? ensures validation'[id].race < next' {
        assert Updated(validators, values, cancel, validation', cancel', started', id);
      }
      forall id | id in cancel' && cancel'[id].Some? ensures cancel'[id].value < next' {
        if id in values {
          assert Updated(validators, values, cancel, validation', cancel', started', id);
        } else {
          assert Slot(cancel', id) == Slot(cancel, id);
        }
      }
      forall id, t | t < next && Slot(cancel, id) != Some(t) ensures Slot(cancel', id) != Some(t) {
        if id in values {
          assert Updated(validators, values, cancel, validation', cancel', started', id);
        }
      }
      cancel, next := cancel', next';
      if validation' != validation {
        validation := validation';
      }
      started := started';
    }

    /** A race's resolution. It reaches the 'sync' case only if the race still holds the field's cancel slot. */
    method Sync(e: SyncEvent)
      requires Valid()
      modifies this`validation, this`errors
      ensures Valid()
      ensures Snapshot() == Deliver(old(Snapshot()), cancel, e)
    {
      var st := Deliver(Snapshot(), cancel, e);
      validation, errors := st.validation, st.errors;
      forall id | id in validation && validation[id].Pending? ensures validation[id].race < next {
        assert id != e.id || Result(validation, e.id) == Result(old(validation), e.id);
        assert id in old(validation) && old(validation)[id] == validation[id] by {
          if id != e.id {
            assert id in validation - {e.id};
          }
        }
      }
    }

    /** `validate[id]()`. */
    method Validate(id: FieldId)
      requires Valid()
      modifies this`errors
      ensures Valid()
      ensures errors == ValidateCase(old(Snapshot()), id)
    {
      errors := ValidateCase(Snapshot(), id);
    }
  }
}

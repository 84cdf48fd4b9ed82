/**
 * The validation reducer. lib/use-validation.ts and lib/validation.ts share the
 * same 'update', 'sync' and 'validate' cases, the same `sync` helper and the
 * same `invalid`/`waiting` views. Those shared parts are modelled here.
 *
 * Each promise race is named by a token. A field's `cancel` slot holds the
 * token of the race it would reject. Writing over the slot is the cancellation,
 * and a resolution whose token is no longer in the slot is dropped.
 */
module ValidationReducer {
  import opened Optional

  type FieldId = string

  /** A race's identity: the per-update-cycle `Promise.race` and its cancel promise. */
  type Token = nat

  /** What a validator returns when called: `undefined`, a string (an error when non-empty) or a promise. */
  datatype Returned = Undefined | Message(text: string) | Promise

  /** A validator is `(value, id) => ValidationResult`, and its code is the user's own. */
  type Validator<!V> = (V, FieldId) -> Returned

  /** A field's entry in `validation`: `undefined`, a string, or the pending race. */
  datatype Outcome = Absent | Err(msg: string) | Pending(race: Token)

  /** A race's resolved value. `sync` turns the `__synced__` flag into `eager`. */
  datatype Synced = NoError | Reported(msg: string, eager: bool)

  /** A resolution reaching the reducer as `{type: 'sync', id, error}`, labelled with the race that produced it. */
  datatype SyncEvent = SyncEvent(id: FieldId, race: Token, result: Synced)

  /** The part of the reducer state the 'sync', 'validate' and 'validate-all' cases rewrite. */
  datatype Status = Status(validation: map<FieldId, Outcome>, errors: map<FieldId, string>)

  /** `validation[id]`, where a missing key is `undefined`. */
  function Result(validation: map<FieldId, Outcome>, id: FieldId): Outcome {
    if id in validation then validation[id] else Absent
  }

  /** `errors[id]`. */
  function Shown(errors: map<FieldId, string>, id: FieldId): Option<string> {
    if id in errors then Some(errors[id]) else None
  }

  /** `cancel[id]`. */
  function Slot(cancel: map<FieldId, Option<Token>>, id: FieldId): Option<Token> {
    if id in cancel then cancel[id] else None
  }

  /** A string-or-undefined as a `validation` entry. */
  function AsOutcome(e: Option<string>): Outcome {
    if e.Some? then Err(e.value) else Absent
  }

  // ---------------------------------------------------------------------------
  // The validator chain of one field

  /** `Boolean(r)`: `undefined` and `''` are falsy, and a promise is truthy. */
  predicate Truthy(r: Returned) {
    r.Promise? || (r.Message? && r.text != "")
  }

  /** A non-empty message: the outcome a validator reports as a synchronous error. */
  predicate IsError(r: Returned) {
    r.Message? && r.text != ""
  }

  /** Every validator of the chain called on the field's value, in declaration order. */
  function Calls<V>(chain: seq<Validator<V>>, value: V, id: FieldId): (r: seq<Returned>)
    ensures |r| == |chain|
    ensures forall i :: 0 <= i < |chain| ==> r[i] == chain[i](value, id)
  {
    seq(|chain|, i requires 0 <= i < |chain| => chain[i](value, id))
  }

  /** `.filter(Boolean)`. */
  function Kept(rs: seq<Returned>): (r: seq<Returned>)
    ensures forall x :: x in r <==> x in rs && Truthy(x)
  {
    if rs == [] then []
    else (if Truthy(rs[0]) then [rs[0]] else []) + Kept(rs[1..])
  }

  /** `results.filter(isError)[0]`: the first string among the results, if there is one. */
  function FirstMessage(rs: seq<Returned>): (r: Option<string>)
    ensures r.Some? ==> exists i :: 0 <= i < |rs| && rs[i] == Message(r.value) && forall j :: 0 <= j < i ==> !rs[j].Message?
    ensures r.None? ==> forall x :: x in rs ==> !x.Message?
  {
    if rs == [] then None
    else if rs[0].Message? then Some(rs[0].text)
    else
      var r := FirstMessage(rs[1..]);
      if r.Some? then
        var i :| 0 <= i < |rs[1..]| && rs[1..][i] == Message(r.value) && forall j :: 0 <= j < i ==> !rs[1..][j].Message?;
        assert rs[i + 1] == Message(r.value) && forall j :: 0 <= j < i + 1 ==> !rs[j].Message?;
        r
      else r
  }

  /** What one 'update' cycle finds for a field: its first sync error, and whether any promise must be raced. */
  datatype Cycle = Cycle(error: Option<string>, racing: bool)

  /**
   * The cycle of one field: its error is a non-empty message some validator
   * returned, and it races exactly when some validator returned a promise.
   */
  function Classify<V>(chain: seq<Validator<V>>, value: V, id: FieldId): (c: Cycle)
    ensures c.error.Some? ==> c.error.value != "" && Message(c.error.value) in Calls(chain, value, id)
    ensures c.racing <==> Promise in Calls(chain, value, id)
  {
    var kept := Kept(Calls(chain, value, id));
    var c := Cycle(FirstMessage(kept), Promise in kept);
    assert c.error.Some? ==> Message(c.error.value) in kept;
    c
  }

  /** Validator `i` is the first in the chain to report a sync error. */
  ghost predicate FirstErrorAt(rs: seq<Returned>, i: nat) {
    && i < |rs| && IsError(rs[i])
    && forall j :: 0 <= j < i ==> !IsError(rs[j])
  }

  lemma {:induction false} FirstMessageOfKept(rs: seq<Returned>, i: nat)
    requires FirstErrorAt(rs, i)
    ensures FirstMessage(Kept(rs)) == Some(rs[i].text)
  {
    if i == 0 {
      assert Kept(rs) == [rs[0]] + Kept(rs[1..]);
    } else {
      assert !IsError(rs[0]);
      FirstMessageOfKept(rs[1..], i - 1);
      assert Kept(rs) == Kept(rs[1..]) || Kept(rs) == [rs[0]] + Kept(rs[1..]);
    }
  }

  /**
   * Sync errors take precedence. The field's error is the message of the first
   * validator that reports one, whatever any other validator returns. Without a
   * sync error a race is started exactly when some validator returned a promise.
   * Falsy outcomes (`undefined`, `''`) count for nothing.
   */
  lemma ClassifySpec<V>(chain: seq<Validator<V>>, value: V, id: FieldId)
    ensures var c, rs := Classify(chain, value, id), Calls(chain, value, id);
            && (forall i: nat :: FirstErrorAt(rs, i) ==> c.error == Some(rs[i].text))
            && ((forall i :: 0 <= i < |rs| ==> !IsError(rs[i])) ==> c.error == None)
            && (c.racing <==> Promise in rs)
            && (c.error.Some? ==> c.error.value != "")
  {
    var c, rs := Classify(chain, value, id), Calls(chain, value, id);
    forall i: nat | FirstErrorAt(rs, i) ensures c.error == Some(rs[i].text) {
      FirstMessageOfKept(rs, i);
    }
    if c.error.Some? {
      assert Message(c.error.value) in Kept(rs);
    }
  }

  /** The outcome of a cycle, stored in `validation[id]`: `error ?? promise`. */
  function OutcomeOf(c: Cycle, race: Option<Token>): (r: Outcome)
    requires c.racing ==> race.Some?
    ensures c.error.Some? ==> r == Err(c.error.value)
    ensures c.error.None? ==> (r.Pending? <==> c.racing) && !r.Err?
    ensures r.Pending? ==> race == Some(r.race)
  {
    if c.error.Some? then Err(c.error.value)
    else if c.racing then Pending(race.value)
    else Absent
  }

  /**
   * One cycle's rule for one field. A race is started exactly when the cycle
   * has a promise. The old race's canceller is fired only when the cycle has a
   * sync error or a promise. The slot then holds the new race, or nothing if
   * there is only an error. A cycle with neither leaves the slot as it was.
   */
  ghost predicate FieldUpdated(c: Cycle, result: Outcome, oldSlot: Option<Token>, newSlot: Option<Token>, started: Option<Token>) {
    && (started.Some? <==> c.racing)
    && result == OutcomeOf(c, started)
    && newSlot == (if c.racing then started else if c.error.Some? then None else oldSlot)
  }

  function Started(started: map<FieldId, Token>, id: FieldId): Option<Token> {
    if id in started then Some(started[id]) else None
  }

  /** Field `id` of `values` went through one cycle by the rule above. */
  ghost predicate Updated<V>(validators: map<FieldId, seq<Validator<V>>>, values: map<FieldId, V>,
                             cancel: map<FieldId, Option<Token>>, validation: map<FieldId, Outcome>,
                             cancel': map<FieldId, Option<Token>>, started: map<FieldId, Token>, id: FieldId)
    requires id in values && id in validators && id in validation
  {
    FieldUpdated(Classify(validators[id], values[id], id), validation[id], Slot(cancel, id), Slot(cancel', id), Started(started, id))
  }

  /**
   * The 'update' case (lib/use-validation.ts:63-100). Each field of `values` is
   * run through its validator chain. Its `cancel` slot is updated in place, and
   * a fresh race token is drawn for each field that races. The method returns
   * the recomputed `validation` map, the new `cancel` map, the races started
   * and the next unused token.
   */
  method RunUpdate<V>(validators: map<FieldId, seq<Validator<V>>>, values: map<FieldId, V>,
                      cancel: map<FieldId, Option<Token>>, next: Token)
    returns (validation: map<FieldId, Outcome>, cancel': map<FieldId, Option<Token>>,
             started: map<FieldId, Token>, next': Token)
    requires values.Keys <= validators.Keys
    ensures validation.Keys == values.Keys && started.Keys <= values.Keys
    ensures forall id :: id in values ==> Updated(validators, values, cancel, validation, cancel', started, id)
    ensures forall id :: id !in values ==> Slot(cancel', id) == Slot(cancel, id)
    ensures next <= next'
    ensures forall id :: id in started ==> next <= started[id] < next'
    ensures forall a, b :: a in started && b in started && a != b ==> started[a] != started[b]
  {
    validation, cancel', started, next' := map[], cancel, map[], next;
    var pending := values.Keys;
    while pending != {}
      invariant pending <= values.Keys
      invariant validation.Keys == values.Keys - pending
      invariant started.Keys <= validation.Keys
      invariant forall id :: id in validation ==> Updated(validators, values, cancel, validation, cancel', started, id)
      invariant forall id :: id !in validation ==> Slot(cancel', id) == Slot(cancel, id)
      invariant next <= next'
      invariant forall id :: id in started ==> next <= started[id] < next'
      invariant forall a, b :: a in started && b in started && a != b ==> started[a] != started[b]
      decreases pending
    {
      var id :| id in pending;
      var c := Classify(validators[id], values[id], id);
      ghost var cancel0, started0 := cancel', started;
      if c.error.Some? || c.racing {
        cancel' := cancel'[id := None];
      }
      var race: Option<Token> := None;
      if c.racing {
        race := Some(next');
        started := started[id := next'];
        cancel' := cancel'[id := race];
        next' := next' + 1;
      }
      ghost var validation0 := validation;
      validation := validation[id := OutcomeOf(c, race)];
      assert Updated(validators, values, cancel, validation, cancel', started, id);
      forall k | k in validation0
        ensures Updated(validators, values, cancel, validation, cancel', started, k)
      {
        assert k != id;
        assert Slot(cancel', k) == Slot(cancel0, k) && Started(started, k) == Started(started0, k);
        assert Updated(validators, values, cancel, validation0, cancel0, started0, k);
      }
      pending := pending - {id};
    }
  }

  /**
   * After a cycle, a field that had a sync error or a promise holds no race
   * drawn before the cycle. Every earlier race of that field is superseded, and
   * at most the one started now is live.
   */
  lemma SupersededRacesAreStale<V>(validators: map<FieldId, seq<Validator<V>>>, values: map<FieldId, V>,
                                   cancel: map<FieldId, Option<Token>>, validation: map<FieldId, Outcome>,
                                   cancel': map<FieldId, Option<Token>>, started: map<FieldId, Token>, next: Token)
    requires values.Keys <= validators.Keys && validation.Keys == values.Keys
    requires forall id :: id in values ==> Updated(validators, values, cancel, validation, cancel', started, id)
    requires forall id :: id in started ==> next <= started[id]
    ensures forall id :: id in values && (Classify(validators[id], values[id], id).error.Some? ||
                                          Classify(validators[id], values[id], id).racing) ==>
              Slot(cancel', id) == Started(started, id) && (Slot(cancel', id).None? || next <= Slot(cancel', id).value)
  {
    forall id | id in values && (Classify(validators[id], values[id], id).error.Some? ||
                                 Classify(validators[id], values[id], id).racing)
      ensures Slot(cancel', id) == Started(started, id) && (Slot(cancel', id).None? || next <= Slot(cancel', id).value)
    {
      assert Updated(validators, values, cancel, validation, cancel', started, id);
    }
  }

  // ---------------------------------------------------------------------------
  // Resolutions

  /** The `sync` helper handed to validators. It tags a truthy message as eager and passes anything else through. */
  function SyncTag(error: Option<string>): (r: Synced)
    ensures error.None? <==> r == NoError
    ensures error.Some? ==> r.Reported? && r.msg == error.value
    ensures r.Reported? ==> (r.eager <==> r.msg != "")
  {
    if error.None? then NoError
    else Reported(error.value, error.value != "")
  }

  /** The value the 'sync' case stores: `String(error)` for a string, otherwise `undefined`. */
  function Received(r: Synced): (o: Outcome)
    ensures o.Err? <==> r.Reported?
    ensures o.Err? ==> o.msg == r.msg
    ensures !o.Pending?
  {
    if r.Reported? then Err(r.msg) else Absent
  }

  /**
   * The 'sync' case (lib/use-validation.ts:102-125). A field holding a sync
   * error ignores the resolution. Otherwise `validation[id]` takes the resolved
   * value. `errors[id]` takes it only when it is eager, non-empty and new.
   */
  function SyncCase(st: Status, id: FieldId, r: Synced): (res: Status)
    ensures Result(st.validation, id).Err? ==> res == st
    ensures !Result(st.validation, id).Err? ==> Result(res.validation, id) == Received(r)
    ensures res.validation - {id} == st.validation - {id}
    ensures id in res.validation <==> id in st.validation || Received(r) != Absent
    ensures !Result(st.validation, id).Err? && r.Reported? && r.eager && r.msg != "" ==>
              res.errors == st.errors[id := r.msg]
    ensures Result(st.validation, id).Err? || !(r.Reported? && r.eager && r.msg != "") ==>
              res.errors == st.errors
  {
    if Result(st.validation, id).Err? then st
    else
      var error := Received(r);
      var isEager := r.Reported? && r.eager;
      var isErrorUpdate := AsOutcome(Shown(st.errors, id)) != error;
      var isValidationUpdate := Result(st.validation, id) != error;
      if !isErrorUpdate && !isValidationUpdate then st
      else
        var validation := if isValidationUpdate then st.validation[id := error] else st.validation;
        if !isEager || !(error.Err? && error.msg != "") || !isErrorUpdate then st.(validation := validation)
        else Status(validation, st.errors[id := error.msg])
  }

  /** A resolution after the race-versus-cancel promise: it reaches the reducer only if its race was not cancelled. */
  function Deliver(st: Status, cancel: map<FieldId, Option<Token>>, e: SyncEvent): (res: Status)
    ensures Slot(cancel, e.id) != Some(e.race) ==> res == st
  {
    if Slot(cancel, e.id) == Some(e.race) then SyncCase(st, e.id, e.result) else st
  }

  /** Resolutions arriving one after another while no 'update' runs. */
  function DeliverAll(st: Status, cancel: map<FieldId, Option<Token>>, es: seq<SyncEvent>): Status
    decreases |es|
  {
    if es == [] then st else DeliverAll(Deliver(st, cancel, es[0]), cancel, es[1..])
  }

  /** One resolution, for any field, leaves a field that holds a sync error as it was. */
  lemma SyncKeepsSyncError(st: Status, cancel: map<FieldId, Option<Token>>, e: SyncEvent, id: FieldId)
    requires Result(st.validation, id).Err?
    ensures Result(Deliver(st, cancel, e).validation, id) == Result(st.validation, id)
    ensures Shown(Deliver(st, cancel, e).errors, id) == Shown(st.errors, id)
  {
    var st' := Deliver(st, cancel, e);
    if Slot(cancel, e.id) == Some(e.race) && e.id != id {
      assert st.validation - {e.id} == st'.validation - {e.id};
      assert id in st'.validation <==> id in (st'.validation - {e.id});
    }
  }

  /**
   * A sync error beats async. While a field holds a sync error, no resolution
   * changes its result or its revealed error, whatever the races and the order.
   */
  lemma {:induction false} SyncErrorSurvives(st: Status, cancel: map<FieldId, Option<Token>>,
                                             es: seq<SyncEvent>, id: FieldId)
    requires Result(st.validation, id).Err?
    ensures Result(DeliverAll(st, cancel, es).validation, id) == Result(st.validation, id)
    ensures Shown(DeliverAll(st, cancel, es).errors, id) == Shown(st.errors, id)
    decreases |es|
  {
    if es != [] {
      SyncKeepsSyncError(st, cancel, es[0], id);
      SyncErrorSurvives(Deliver(st, cancel, es[0]), cancel, es[1..], id);
    }
  }

  /**
   * A race whose token has left the field's slot is superseded. None of its
   * resolutions change anything.
   */
  lemma {:induction false} StaleDeliveriesIgnored(st: Status, cancel: map<FieldId, Option<Token>>, es: seq<SyncEvent>)
    requires forall i :: 0 <= i < |es| ==> Slot(cancel, es[i].id) != Some(es[i].race)
    ensures DeliverAll(st, cancel, es) == st
    decreases |es|
  {
    if es != [] {
      StaleDeliveriesIgnored(st, cancel, es[1..]);
    }
  }

  // ---------------------------------------------------------------------------
  // Reveal

  /**
   * The 'validate' case (lib/use-validation.ts:127-141). A string result is
   * copied into `errors[id]`. Any other result removes `id` from `errors`. No
   * other key is touched.
   */
  function ValidateCase(st: Status, id: FieldId): (errors: map<FieldId, string>)
    ensures Shown(errors, id) == (if Result(st.validation, id).Err? then Some(Result(st.validation, id).msg) else None)
    ensures errors - {id} == st.errors - {id}
    ensures Result(st.validation, id) == AsOutcome(Shown(st.errors, id)) ==> errors == st.errors
  {
    var result := Result(st.validation, id);
    if result == AsOutcome(Shown(st.errors, id)) then st.errors
    else if result.Err? then st.errors[id := result.msg]
    else st.errors - {id}
  }

  /** Revealing a field twice is the same as revealing it once. */
  lemma ValidateIdempotent(st: Status, id: FieldId)
    ensures ValidateCase(st.(errors := ValidateCase(st, id)), id) == ValidateCase(st, id)
  {
  }

  /** The errors 'validate-all' reveals: every string-valued result, and nothing else. */
  function StringResults(validation: map<FieldId, Outcome>): (errors: map<FieldId, string>)
    ensures forall id :: Shown(errors, id) == (if Result(validation, id).Err? then Some(Result(validation, id).msg) else None)
  {
    map id | id in validation && validation[id].Err? :: validation[id].msg
  }

  /** Revealing every field and then any one field changes nothing more. */
  lemma ValidateAfterValidateAll(validation: map<FieldId, Outcome>, id: FieldId)
    ensures ValidateCase(Status(validation, StringResults(validation)), id) == StringResults(validation)
  {
    var errors := StringResults(validation);
    assert Shown(errors, id) == (if Result(validation, id).Err? then Some(Result(validation, id).msg) else None);
  }

  // ---------------------------------------------------------------------------
  // Derived views

  /** `Boolean(value)` for a `validation` entry. */
  predicate Holds(o: Outcome) {
    o.Pending? || (o.Err? && o.msg != "")
  }

  /**
   * `invalid`: some entry of `validation` is truthy, that is a pending race or a
   * non-empty message. A field that is waiting makes the form invalid. With no
   * field waiting, the form is invalid exactly when 'validate-all' would reveal
   * a non-empty error.
   */
  function Invalid(validation: map<FieldId, Outcome>): (r: bool)
    ensures (exists id :: id in validation && validation[id].Pending?) ==> r
    ensures (exists id :: id in StringResults(validation) && StringResults(validation)[id] != "") ==> r
    ensures r && (forall id :: id in validation ==> !validation[id].Pending?) ==>
              exists id :: id in StringResults(validation) && StringResults(validation)[id] != ""
  {
    var r := exists id :: id in validation && Holds(validation[id]);
    if r && (forall id :: id in validation ==> !validation[id].Pending?) then
      var id :| id in validation && Holds(validation[id]);
      assert Shown(StringResults(validation), id) == Some(validation[id].msg);
      r
    else r
  }

  /** `waiting`: one flag per entry of `validation`, true for a pending race. */
  function Waiting(validation: map<FieldId, Outcome>): (w: map<FieldId, bool>)
    ensures w.Keys == validation.Keys
    ensures forall id :: id in w ==> (w[id] <==> validation[id].Pending?)
  {
    map id | id in validation :: validation[id].Pending?
  }

  /**
   * After an 'update', the form is invalid exactly when some field's validators
   * raised a sync error or returned a promise. A field is waiting exactly when
   * it raced without a sync error.
   */
  lemma InvalidAfterUpdate<V>(validators: map<FieldId, seq<Validator<V>>>, values: map<FieldId, V>,
                              cancel: map<FieldId, Option<Token>>, validation: map<FieldId, Outcome>,
                              cancel': map<FieldId, Option<Token>>, started: map<FieldId, Token>)
    requires values.Keys <= validators.Keys && validation.Keys == values.Keys
    requires forall id :: id in values ==> Updated(validators, values, cancel, validation, cancel', started, id)
    ensures Invalid(validation) <==>
              exists id :: id in values && (Classify(validators[id], values[id], id).error.Some? ||
                                            Classify(validators[id], values[id], id).racing)
    ensures forall id :: id in values ==>
              (Waiting(validation)[id] <==> Classify(validators[id], values[id], id).error.None? &&
                                              Classify(validators[id], values[id], id).racing)
  {
    forall id | id in values
      ensures Holds(validation[id]) <==> (Classify(validators[id], values[id], id).error.Some? ||
                                          Classify(validators[id], values[id], id).racing)
    {
      ClassifySpec(validators[id], values[id], id);
    }
  }
}

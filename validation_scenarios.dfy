/**
 * The behaviours tests/validation.spec.ts checks, replayed on the engine. Each
 * method builds an engine, drives it with updates, resolutions and reveals,
 * and states what the hook would show.
 */
module ValidationScenarios {
  import opened Optional
  import opened ValidationReducer
  import opened ValidationEngine

  /** `validator(expected)`: the string "invalid" for any other value. */
  function Matches(expected: string): Validator<string> {
    (v: string, _: FieldId) => if v != expected then Message("invalid") else Undefined
  }

  /** `asyncValidator` and `asyncEagerValidator`: always a promise. */
  function Async(): Validator<string> {
    (_: string, _: FieldId) => Promise
  }

  /** `multipleValidation(expected)`: an async validator, then a sync one reporting "sync". */
  function Multiple(expected: string): seq<Validator<string>> {
    [Async(), (v: string, _: FieldId) => if v != expected then Message("sync") else Undefined]
  }

  /** `slowValidator`: a promise for the value "slow", nothing otherwise. */
  function Slow(): Validator<string> {
    (v: string, _: FieldId) => if v == "slow" then Promise else Undefined
  }

  lemma MatchesCycle(expected: string, v: string, id: FieldId)
    ensures Classify([Matches(expected)], v, id) == if v != expected then Cycle(Some("invalid"), false) else Cycle(None, false)
  {
    assert Calls([Matches(expected)], v, id) == [Matches(expected)(v, id)];
    assert Kept([Message("invalid")]) == [Message("invalid")];
    assert Kept([Undefined]) == [];
  }

  lemma AsyncCycle(v: string, id: FieldId)
    ensures Classify([Async()], v, id) == Cycle(None, true)
  {
    assert Calls([Async()], v, id) == [Promise];
    assert Kept([Promise]) == [Promise];
  }

  lemma MultipleCycle(expected: string, v: string, id: FieldId)
    requires v != expected
    ensures Classify(Multiple(expected), v, id) == Cycle(Some("sync"), true)
  {
    assert Calls(Multiple(expected), v, id) == [Promise, Message("sync")];
    assert Kept([Promise, Message("sync")]) == [Promise, Message("sync")];
  }

  /** A validator that races for "slow", reports "bad" for "bad", and returns nothing otherwise. */
  function SlowOrBad(): Validator<string> {
    (v: string, _: FieldId) => if v == "slow" then Promise else if v == "bad" then Message("bad") else Undefined
  }

  lemma SlowOrBadCycle(v: string, id: FieldId)
    ensures Classify([SlowOrBad()], v, id) ==
            if v == "slow" then Cycle(None, true) else if v == "bad" then Cycle(Some("bad"), false) else Cycle(None, false)
  {
    assert Calls([SlowOrBad()], v, id) == [SlowOrBad()(v, id)];
    assert Kept([Promise]) == [Promise];
    assert Kept([Message("bad")]) == [Message("bad")];
    assert Kept([Undefined]) == [];
  }

  lemma SlowCycle(v: string, id: FieldId)
    ensures Classify([Slow()], v, id) == Cycle(None, v == "slow")
  {
    assert Calls([Slow()], v, id) == [Slow()(v, id)];
    assert Kept([Promise]) == [Promise];
    assert Kept([Undefined]) == [];
  }

  /**
   * An 'update' of the single field `id` of a scenario's form, with its outcome
   * spelled out for that field. The scenarios reason about concrete states
   * through this contract.
   */
  method UpdateField(e: Engine<string>, id: FieldId, v: string) returns (started: Option<Token>)
    requires e.Valid() && id in e.validators
    modifies e
    ensures e.Valid() && e.errors == old(e.errors)
    ensures var c := Classify(e.validators[id], v, id);
            && (started.Some? <==> c.racing)
            && e.validation == map[id := OutcomeOf(c, started)]
            && Slot(e.cancel, id) == (if c.racing then started else if c.error.Some? then None else Slot(old(e.cancel), id))
    ensures started.Some? ==> old(e.next) <= started.value < e.next
    ensures old(e.next) <= e.next
  {
    var races := e.Update(map[id := v]);
    assert Updated(e.validators, map[id := v], old(e.cancel), e.validation, e.cancel, races, id);
    started := Started(races, id);
  }

  /**
   * Errors are revealed lazily. A value the validator rejects makes the form
   * invalid but shows no error until `validate.value()`. Back at the accepted
   * value, the form is valid again, and the next reveal removes the key.
   */
  method LazyReveal()
    returns (invalid: bool, hidden: bool, shown: Option<string>, invalidAfter: bool, keyAfter: bool)
    ensures invalid && hidden && shown == Some("invalid")
    ensures !invalidAfter && !keyAfter
  {
    var e := new Engine(map["value" := [Matches("initial")]]);
    MatchesCycle("initial", "initial", "value");
    MatchesCycle("initial", "update", "value");
    var started := UpdateField(e, "value", "initial");
    started := UpdateField(e, "value", "update");
    invalid, hidden := Invalid(e.validation), "value" !in e.errors;
    assert Holds(e.validation["value"]);
    e.Validate("value");
    shown := Shown(e.errors, "value");
    started := UpdateField(e, "value", "initial");
    invalidAfter := Invalid(e.validation);
    e.Validate("value");
    keyAfter := "value" in e.errors;
  }

  /**
   * A sync error takes precedence over async validation. Any resolutions may
   * arrive, in any order, and the revealed error is still the sync validator's.
   */
  method SyncErrorWins(events: seq<SyncEvent>) returns (shown: Option<string>)
    ensures shown == Some("sync")
  {
    var e := new Engine(map["value" := Multiple("initial")]);
    MultipleCycle("initial", "invalid", "value");
    var started := UpdateField(e, "value", "invalid");
    for i := 0 to |events|
      invariant e.Valid()
      invariant Result(e.validation, "value") == Err("sync")
    {
      ghost var st := e.Snapshot();
      e.Sync(events[i]);
      SyncKeepsSyncError(st, e.cancel, events[i], "value");
    }
    e.Validate("value");
    shown := Shown(e.errors, "value");
  }

  /**
   * An eager error shows as soon as its race resolves. The resolution tagged by
   * `sync('invalid')` reaches `errors` with no reveal.
   */
  method EagerError() returns (waiting: bool, shown: Option<string>)
    ensures waiting && shown == Some("invalid")
  {
    var e := new Engine(map["value" := [Async()]]);
    AsyncCycle("update", "value");
    var started := UpdateField(e, "value", "update");
    waiting := Waiting(e.validation)["value"];
    e.Sync(SyncEvent("value", started.value, SyncTag(Some("invalid"))));
    shown := Shown(e.errors, "value");
  }

  /**
   * A plain async error stays hidden. It is recorded, and the form stops
   * waiting but stays invalid. It shows only after `validate.value()`.
   */
  method LazyAsyncError() returns (hidden: bool, invalid: bool, waiting: bool, shown: Option<string>)
    ensures hidden && invalid && !waiting && shown == Some("invalid")
  {
    var e := new Engine(map["value" := [Async()]]);
    AsyncCycle("update", "value");
    var started := UpdateField(e, "value", "update");
    e.Sync(SyncEvent("value", started.value, Reported("invalid", false)));
    hidden, invalid, waiting := "value" !in e.errors, Invalid(e.validation), Waiting(e.validation)["value"];
    assert Holds(e.validation["value"]);
    e.Validate("value");
    shown := Shown(e.errors, "value");
  }

  /**
   * A second update supersedes the first one's race. The first race's eager
   * error arrives after the second race resolved clean, and it is dropped.
   */
  method LatestRaceWins() returns (shown: Option<string>, invalid: bool)
    ensures shown == None && !invalid
  {
    var e := new Engine(map["value" := [Async()]]);
    AsyncCycle("update", "value");
    AsyncCycle("initial", "value");
    var first := UpdateField(e, "value", "update");
    var second := UpdateField(e, "value", "initial");
    e.Sync(SyncEvent("value", second.value, NoError));
    assert e.validation == map["value" := Absent] && e.errors == map[];
    e.Sync(SyncEvent("value", first.value, SyncTag(Some("invalid"))));
    assert e.validation == map["value" := Absent] && e.errors == map[];
    shown, invalid := Shown(e.errors, "value"), Invalid(e.validation);
  }

  /**
   * An update whose validators all come back empty cancels nothing. The race
   * of the update before it stays live, and its late error is written over the
   * fresher empty result.
   */
  method EmptyCycleKeepsRace() returns (invalid: bool, result: Outcome)
    ensures invalid && result == Err("taken")
  {
    var e := new Engine(map["value" := [Slow()]]);
    SlowCycle("slow", "value");
    SlowCycle("fast", "value");
    var first := UpdateField(e, "value", "slow");
    var second := UpdateField(e, "value", "fast");
    e.Sync(SyncEvent("value", first.value, Reported("taken", false)));
    result := Result(e.validation, "value");
    invalid := Invalid(e.validation);
    assert Holds(e.validation["value"]);
  }

  /**
   * Supersession lasts. A race is cancelled by a cycle with a sync error, and a
   * later cycle starts a new race. The first race's late eager error is still
   * dropped: its token never holds the slot again, so the field keeps waiting
   * on the newest race and shows no error.
   */
  method CancelledRaceStaysStale() returns (result: Outcome, shown: Option<string>)
    ensures result.Pending? && shown == None
  {
    var e := new Engine(map["value" := [SlowOrBad()]]);
    SlowOrBadCycle("slow", "value");
    SlowOrBadCycle("bad", "value");
    var first := UpdateField(e, "value", "slow");
    var second := UpdateField(e, "value", "bad");
    var third := UpdateField(e, "value", "slow");
    assert first.value < third.value;
    e.Sync(SyncEvent("value", first.value, SyncTag(Some("late"))));
    result, shown := Result(e.validation, "value"), Shown(e.errors, "value");
  }
}

/**
 * The form store's reducer. The same reducer appears twice in the source, once in
 * lib/use-form.ts and once in lib/useForm.ts. The two copies are the same code, one
 * line apart. The state is three records of field values: `initial`, `values`, and
 * `updates`. `updates` holds the fields whose value differs from the initial one.
 */
module FormReducer {
  import opened Optional

  type FieldId = string

  /** A JavaScript value read out of a record: `undefined`, or a value of the form. */
  datatype JsValue<V> = Undefined | Defined(value: V)

  /**
   * A `Record<string, unknown>`. A missing key reads as `undefined`. A key may
   * also be present and hold `undefined`, and it is still counted by `Object.values`.
   */
  type Record<V> = map<FieldId, JsValue<V>>

  /** `m[k]` in JavaScript. */
  function Get<V>(m: Record<V>, k: FieldId): JsValue<V> {
    if k in m then m[k] else Undefined
  }

  /**
   * The `value` of a 'set' action. If it is `undefined`, the field goes back to its
   * initial value. If it is a function, it is applied to the current value.
   * Anything else is taken as it is.
   */
  datatype SetArg<!V> = Omitted | Updater(f: JsValue<V> -> JsValue<V>) | Literal(v: V)

  datatype FormState<V> = FormState(initial: Record<V>, values: Record<V>, updates: Record<V>)

  datatype Action<!V> = Set(id: Option<FieldId>, value: SetArg<V>) | Reset(initial: Record<V>)

  /** `!action.id` is false: there is an id and it is not the empty string. */
  predicate HasId(id: Option<FieldId>) {
    id.Some? && id.value != ""
  }

  /**
   * The value a 'set' of field `id` writes. `undefined` stands for the field's
   * initial value. An updater sees the field's current value.
   */
  function Resolve<V>(s: FormState<V>, id: FieldId, arg: SetArg<V>): (r: JsValue<V>)
    ensures arg.Omitted? ==> r == Get(s.initial, id)
    ensures arg.Updater? ==> r == arg.f(Get(s.values, id))
    ensures arg.Literal? ==> r.Defined? && r.value == arg.v
  {
    match arg
    case Omitted => Get(s.initial, id)
    case Updater(f) => f(Get(s.values, id))
    case Literal(v) => Defined(v)
  }

  /** The reducer. A 'set' that changes nothing returns the state itself. */
  function Reduce<V(==)>(s: FormState<V>, a: Action<V>): (r: FormState<V>)
    ensures a.Set? && !HasId(a.id) ==> r == s
    ensures a.Set? && HasId(a.id) && Resolve(s, a.id.value, a.value) == Get(s.values, a.id.value) ==> r == s
    ensures a.Set? && HasId(a.id) ==>
              && r.initial == s.initial
              && Get(r.values, a.id.value) == Resolve(s, a.id.value, a.value)
              && r.values - {a.id.value} == s.values - {a.id.value}
              && r.updates - {a.id.value} == s.updates - {a.id.value}
    ensures a.Reset? ==> r.initial == r.values == a.initial && r.updates == map[]
  {
    match a
    case Set(id, arg) =>
      if !HasId(id) then s
      else
        var k := id.value;
        var initial := Get(s.initial, k);
        var update := Get(s.updates, k);
        var value := Resolve(s, k, arg);
        if value == Get(s.values, k) then s
        else
          var isInitial := value == initial;
          var values := s.values[k := value];
          if !isInitial && value != update then s.(values := values, updates := s.updates[k := value])
          else if isInitial && update != Undefined then s.(values := values, updates := s.updates - {k})
          else s.(values := values)
    case Reset(initial) =>
      s.(initial := initial, values := initial, updates := map[])
  }

  /**
   * `pristine`: `Object.values(updates)` is empty. A key holding `undefined`
   * still counts, so pristine means no key at all.
   */
  function Pristine<V>(s: FormState<V>): (r: bool)
    ensures r <==> forall k :: k !in s.updates
  {
    |s.updates| == 0
  }

  /**
   * The intended relation between the three records. `updates` lists exactly the
   * fields whose value differs from the initial value. Each entry holds the
   * field's current value, and that value is not `undefined`.
   */
  ghost predicate Tracked<V>(s: FormState<V>) {
    && (forall k :: k in s.updates <==> Get(s.values, k) != Get(s.initial, k))
    && (forall k :: k in s.updates ==> s.updates[k] == Get(s.values, k) && s.updates[k].Defined?)
  }

  /** The state built at mount, and the state after a reset: both are tracked and pristine. */
  lemma ResetIsPristine<V>(s: FormState<V>, initial: Record<V>)
    ensures Reduce(s, Reset(initial)) == FormState(initial, initial, map[])
    ensures Tracked(Reduce(s, Reset(initial))) && Pristine(Reduce(s, Reset(initial)))
  {
  }

  /** A 'set' whose value is not `undefined` keeps `updates` equal to the diff against `initial`. */
  lemma SetPreservesTracked<V>(s: FormState<V>, a: Action<V>)
    requires Tracked(s)
    requires a.Set? && HasId(a.id) ==> Resolve(s, a.id.value, a.value).Defined?
    ensures Tracked(Reduce(s, a))
  {
    if a.Set? && HasId(a.id) {
      var k, r := a.id.value, Reduce(s, a);
      if Resolve(s, a.id.value, a.value) != Get(s.values, k) {
        forall j ensures j in r.updates <==> Get(r.values, j) != Get(r.initial, j) {
          if j != k {
            assert Get(r.values, j) == Get(s.values, j);
            assert j in r.updates <==> j in s.updates;
          }
        }
      }
    }
  }

  /**
   * Without the hypothesis, tracking breaks. An updater that returns `undefined`
   * for a field still at its initial value writes `undefined` into `values`. It
   * adds nothing to `updates`, so the form still reads as pristine.
   */
  lemma UndefinedUpdaterBreaksTracking()
    ensures var s := FormState(map["a" := Defined(1)], map["a" := Defined(1)], map[]);
            var r := Reduce(s, Set(Some("a"), Updater((_: JsValue<int>) => Undefined)));
            Tracked(s) && !Tracked(r) && Pristine(r) && Get(r.values, "a") == Undefined
  {
    var s := FormState(map["a" := Defined(1)], map["a" := Defined(1)], map[]);
    forall k ensures k in s.updates <==> Get(s.values, k) != Get(s.initial, k) {
    }
    var r := Reduce(s, Set(Some("a"), Updater((_: JsValue<int>) => Undefined)));
    assert Get(r.values, "a") != Get(r.initial, "a") && "a" !in r.updates;
  }

  /**
   * For a field that already differs from its initial value, an updater that
   * returns `undefined` goes through the first branch. `updates[id]` then holds
   * `undefined`, which `Object.values` still counts, so the form is not
   * pristine while `partial[id]` reads as `undefined`.
   */
  lemma UndefinedUpdaterStoresUndefined()
    ensures var s := FormState(map["a" := Defined(1)], map["a" := Defined(2)], map["a" := Defined(2)]);
            var r := Reduce(s, Set(Some("a"), Updater((_: JsValue<int>) => Undefined)));
            Tracked(s) && r.updates == map["a" := Undefined] && !Pristine(r) && !Tracked(r)
  {
    var s := FormState(map["a" := Defined(1)], map["a" := Defined(2)], map["a" := Defined(2)]);
    forall k ensures k in s.updates <==> Get(s.values, k) != Get(s.initial, k) {
    }
    var r := Reduce(s, Set(Some("a"), Updater((_: JsValue<int>) => Undefined)));
    assert "a" in r.updates && !r.updates["a"].Defined?;
  }

  /** A value other than the current and the initial one is recorded in `updates`, so it shows in `partial`. */
  lemma SetRecordsChange<V>(s: FormState<V>, id: FieldId, arg: SetArg<V>)
    requires id != ""
    requires Resolve(s, id, arg).Defined?
    requires Resolve(s, id, arg) != Get(s.values, id) && Resolve(s, id, arg) != Get(s.initial, id)
    ensures var r := Reduce(s, Set(Some(id), arg));
            id in r.updates && r.updates[id] == Resolve(s, id, arg) && !Pristine(r)
  {
    var r := Reduce(s, Set(Some(id), arg));
    assert id in r.updates;
    assert |r.updates| > 0 by {
      assert r.updates != map[];
    }
  }

  /** A tracked field set back to its initial value drops out of `updates`. */
  lemma SetToInitialDropsUpdate<V>(s: FormState<V>, id: FieldId, arg: SetArg<V>)
    requires Tracked(s) && id != ""
    requires Resolve(s, id, arg) == Get(s.initial, id)
    ensures var r := Reduce(s, Set(Some(id), arg));
            id !in r.updates && Get(r.values, id) == Get(s.initial, id)
  {
  }

  /** An omitted value, which is `undefined`, resets the field to its initial value and removes it from `updates`. */
  lemma SetOmittedRestoresInitial<V>(s: FormState<V>, id: FieldId)
    requires Tracked(s) && id != ""
    ensures var r := Reduce(s, Set(Some(id), Omitted));
            Get(r.values, id) == Get(s.initial, id) && id !in r.updates
  {
    SetToInitialDropsUpdate(s, id, Omitted);
  }

  /** Setting the same literal twice is the same as setting it once. */
  lemma SetLiteralIdempotent<V>(s: FormState<V>, id: Option<FieldId>, v: V)
    ensures Reduce(Reduce(s, Set(id, Literal(v))), Set(id, Literal(v))) == Reduce(s, Set(id, Literal(v)))
  {
  }

  /** For a tracked state, `pristine` holds exactly when every field has its initial value. */
  lemma PristineIffAtInitial<V>(s: FormState<V>)
    requires Tracked(s)
    ensures Pristine(s) <==> forall k :: Get(s.values, k) == Get(s.initial, k)
  {
    if !Pristine(s) {
      var k :| k in s.updates;
      assert Get(s.values, k) != Get(s.initial, k);
    } else {
      assert s.updates == map[];
    }
  }
}

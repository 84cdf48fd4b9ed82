# Form store and validation engine of partypack/hooks, in Dafny

This project models the two in-process state machines of the `hooks` library. Both are written as React reducers.

- **The form store** (`useForm`). It keeps three records: `initial`, `values`, and `updates`, the fields that differ from `initial`.
  - A `set` resolves the new value. `undefined` restores the initial value, a function is applied to the current value, and anything else is taken as it is.
  - A `set` does nothing when the new value equals the current one.
  - A `reset` installs a new initial record and empties `updates`.
  - `pristine` holds when `updates` is empty. `partial` is `updates`.
  - The two copies, `lib/use-form.ts` and `lib/useForm.ts`, have the same reducer. They differ in where `reset()` finds its initial record:
    - `lib/use-form.ts` uses the argument, or else the last record it was given.
    - `lib/useForm.ts` uses the `initial` argument of the latest render.
- **The validation engine** (`useValidation`). Each field has a chain of validators, and each validator returns `undefined`, a string, or a promise.
  - An `update` runs every chain. A field's result is its first non-empty string, or else a race of its promises, or else `undefined`.
  - A cycle that finds a sync error or a promise cancels the field's previous race. A cycle that finds neither cancels nothing.
  - A resolved race reaches the reducer as a `sync` action.
  - Errors become visible only on `validate(id)` or `validate()`, except that an error tagged by the `sync` helper ("eager") shows at once.
  - `invalid` and `waiting` are computed from the results, not from the visible errors.
  - `lib/use-validation.ts` adds an `onValid` continuation to `validate()` and a `clear` action. `lib/validation.ts` has neither.

## How the model is built

- `optional.dfy`: `Option`, used for JavaScript's value-or-`undefined` slots.
- `form_reducer.dfy`: module `FormReducer` models the reducer, which appears in both `lib/use-form.ts:21-66` and `lib/useForm.ts:22-67`. A record is a `map` in which a missing key reads as `undefined`. A key may also be present and hold `undefined`, because `Object.values(updates).length` counts such keys. `Tracked` is the relation the store is meant to keep: `updates` is exactly the diff of `values` against `initial`.
- `form_hooks.dfy`: one class per hook. Each class holds the `initialRef` cell and the reducer state.
  - `FormHookKeepInitial.Form` models `lib/use-form.ts`. Only `reset(initial)` writes the cell.
  - `FormHookLatestInitial.Form` models `lib/useForm.ts`. Every render writes the cell, through `Render`.
  - Each module has a client method that replays the test `tests/form.spec.ts:60-68`.
- `validation_reducer.dfy`: module `ValidationReducer` holds the parts `lib/use-validation.ts` and `lib/validation.ts` share. These are the validator chains, the 'update' loop, the `sync` helper, the 'sync' and 'validate' cases, the string results that 'validate-all' reveals, and the `invalid`/`waiting` views.
  - A promise race is named by a `Token`, drawn from a counter.
  - A field's `cancel` slot holds the token of the race its canceller would reject.
  - Writing over the slot is the cancellation, the in-place write of `state.cancel[id]`.
  - A resolution is a `SyncEvent(id, token, result)`. `Deliver` passes it to the 'sync' case only if its token is still in the slot, as the rejected cancel promise would otherwise win the race.
  - `RunUpdate` is the 'update' loop over the fields. It returns the new `validation` and `cancel` maps and the races it started.
- `validation_engine.dfy`: class `Engine` holds the reducer state (`validation`, `errors`, `cancel`) and the token counter. `Valid` says every token in the state was drawn before the counter, so newly drawn tokens are fresh.
- `validation_hooks.dfy`: `UseValidation.Hook` models `lib/use-validation.ts`. It adds the `onValid` slot, 'validate-all' with its continuation, 'clear', and the effect that runs the continuation. `PlainValidation.Hook` models the 'validate-all' of `lib/validation.ts`.
- `validation_scenarios.dfy`: the behaviours `tests/validation.spec.ts` checks, replayed on the engine.

### Behaviours of the code worth knowing

- **An update with no error and no promise cancels nothing.** The old canceller fires only when the new cycle has a sync error or a promise (`lib/use-validation.ts:76-78`, `lib/validation.ts:70-72`). A field whose validators all come back empty therefore keeps its earlier race alive. That race's late error is then written over the fresher empty result. `ValidationScenarios.EmptyCycleKeepsRace` shows this. The test of race cancellation, `tests/validation.spec.ts:233-248`, carries the comment `// TODO: evaluate correctness` and only covers two cycles that both race.
- **A rejected validator promise dispatches nothing.** The chain `Promise.race([promise, cancel]).then(…).catch(() => undefined)` (`lib/use-validation.ts:85-87`) swallows the rejection. The field keeps its pending race, so it stays waiting and the form stays invalid.
- **`validate(onValid)` stores the callback only if the form is valid at that moment.** On an invalid form the callback is dropped, and it does not fire once the form becomes valid later (`lib/use-validation.ts:150-158`). See `UseValidation.ContinuationOnlyWhenValid`.
- **`updates` can fall out of step with `values` when an updater returns `undefined`.** The update is compared against `undefined` (`lib/use-form.ts:44-52`), and the outcome depends on the field's state:
  - For a field still at its initial value, `undefined` is written into `values` and `updates` is left alone. The field now differs from `initial`, yet it is not listed in `updates`, and the form stays pristine. See `FormReducer.UndefinedUpdaterBreaksTracking`.
  - For a field already in `updates`, the first branch stores `updates[id] = undefined`. `Object.values(updates).length` counts that key, so the form is not pristine, but `partial[id]` reads as `undefined`. See `FormReducer.UndefinedUpdaterStoresUndefined`.
- **One test expects the behaviour of the other hook file.** `tests/form.spec.ts:60-68` imports `lib/use-form.ts`, but the value it expects after a re-render and `reset()` is what `lib/useForm.ts` produces. `FormHookKeepInitial.ResetAfterRerender` shows that `lib/use-form.ts` restores the mount-time record. `FormHookLatestInitial.ResetAfterRerender` shows that `lib/useForm.ts` restores the latest one.

## Model

| member | source | states |
|---|---|---|
| `FormReducer.Reduce` | lib/use-form.ts:21-66 | A 'set' without an id, or with a value equal to the current one, returns the state itself. A 'set' with an id writes the resolved value into `values[id]` and touches no other key of `values` or `updates`. It never changes `initial`. 'reset' makes `initial` and `values` the given record and empties `updates`. |
| `FormReducer.Resolve` | lib/use-form.ts:32-37 | The value a 'set' writes. `undefined` resolves to the field's initial value. An updater is applied to the field's current value. Any other argument is written as given and is never `undefined`. |
| `FormReducer.Pristine` | lib/use-form.ts:106 | `pristine` holds exactly when `updates` has no key at all. A key holding `undefined` also makes the form not pristine. |
| `FormReducer.ResetIsPristine` | lib/use-form.ts:57-64 | The state after a reset is `{x, x, {}}`. It is tracked, and it is pristine. |
| `FormReducer.SetPreservesTracked` | lib/use-form.ts:41-54 | If the resolved value is not `undefined`, a 'set' keeps `updates` equal to exactly the fields whose value differs from `initial`, each holding its current value. |
| `FormReducer.UndefinedUpdaterBreaksTracking` | lib/use-form.ts:36-54 | An updater returning `undefined` for a field at its initial value breaks that relation. The field differs from `initial`, is missing from `updates`, and the form stays pristine. |
| `FormReducer.SetRecordsChange` | lib/use-form.ts:44-47 | A defined value that differs from both the current and the initial value is stored as `updates[id]`, which is `partial[id]`. The form is then not pristine. |
| `FormReducer.SetToInitialDropsUpdate` | lib/useForm.ts:45-52 | In a tracked state, a 'set' whose value equals `initial[id]` leaves `id` out of `updates`, and `values[id]` equals the initial value. |
| `FormReducer.SetOmittedRestoresInitial` | lib/use-form.ts:32-34 | In a tracked state, a 'set' with value `undefined` restores `initial[id]` and removes `id` from `updates`. |
| `FormReducer.SetLiteralIdempotent` | lib/useForm.ts:40 | Setting the same literal twice gives the same state as setting it once. |
| `FormReducer.UndefinedUpdaterStoresUndefined` | lib/use-form.ts:44-46 | An updater returning `undefined` for a field already in `updates` stores `updates[id] = undefined`. The form is then not pristine, and `partial[id]` reads as `undefined`. |
| `FormReducer.PristineIffAtInitial` | lib/useForm.ts:108 | In a tracked state, `pristine` holds exactly when every field has its initial value. |
| `FormHookKeepInitial.Form.constructor` | lib/use-form.ts:79-98 | At mount, the cell and all three records come from the first `initial` argument. The setter keys are its keys. |
| `FormHookKeepInitial.Form.Update` | lib/use-form.ts:89-98 | `update[id](value)` exists only for mount-time keys. It steps the state by 'set' and leaves the cell alone. |
| `FormHookKeepInitial.Form.Reset` | lib/use-form.ts:100-103 | `reset(x?)` stores `x ?? initialRef.current` in the cell, and the state becomes `{cell, cell, {}}`. |
| `FormHookKeepInitial.Form.Pristine` | lib/use-form.ts:106 | `pristine` holds exactly when `partial` is empty. |
| `FormHookKeepInitial.Form.Values` | lib/use-form.ts:107 | A projection of the state: `values` is the reducer's `values` record, key by key. |
| `FormHookKeepInitial.Form.Partial` | lib/use-form.ts:108 | A projection of the state: `partial` is the reducer's `updates` record, key by key. |
| `FormHookKeepInitial.ResetAfterRerender` | tests/form.spec.ts:60-68 | With this hook, mounting, updating a field, and then calling `reset()` gives back the mount-time record, not a later render's, and the form is pristine. |
| `FormHookKeepInitial.ResetReusesLastInitial` | lib/use-form.ts:101-102 | After `reset(x)`, a later plain `reset()` restores `x`, and `partial` is empty. |
| `FormHookLatestInitial.Form.constructor` | lib/useForm.ts:80-100 | At mount, the cell and all three records come from the first `initial` argument. The setter keys are its keys. |
| `FormHookLatestInitial.Form.Render` | lib/useForm.ts:81 | Each render overwrites the cell with its `initial` argument and changes nothing else. |
| `FormHookLatestInitial.Form.Update` | lib/useForm.ts:91-100 | `update[id](value)` steps the state by 'set'. |
| `FormHookLatestInitial.Form.Reset` | lib/useForm.ts:102-105 | `reset()` makes the state `{cell, cell, {}}` with the latest `initial` argument. |
| `FormHookLatestInitial.Form.Pristine` | lib/useForm.ts:108 | `pristine` holds exactly when `partial` is empty. |
| `FormHookLatestInitial.Form.Values` | lib/useForm.ts:109 | A projection of the state: `values` is the reducer's `values` record, key by key. |
| `FormHookLatestInitial.Form.Partial` | lib/useForm.ts:110 | A projection of the state: `partial` is the reducer's `updates` record, key by key. |
| `FormHookLatestInitial.ResetAfterRerender` | tests/form.spec.ts:60-68 | Mount with `before`, update a field, re-render with `after`, then `reset()`: `values` is `after` and the form is pristine. |
| `ValidationReducer.Calls` | lib/use-validation.ts:65-66 | The `.map` written out index by index: one result per validator, in declaration order. Result `i` is validator `i` applied to the field's value and id. |
| `ValidationReducer.Kept` | lib/use-validation.ts:67 | `.filter(Boolean)`. An outcome is in the result exactly when it was returned and is truthy, that is a promise or a non-empty string. |
| `ValidationReducer.FirstMessage` | lib/use-validation.ts:69 | When it returns a string, that string is a result at some position, and no result before that position is a string. It returns nothing only when no result is a string. |
| `ValidationReducer.FirstMessageOfKept` | lib/use-validation.ts:64-69 | If validator `i` is the first to return a non-empty string, that string is the field's error. |
| `ValidationReducer.Classify` | lib/use-validation.ts:64-74 | A field's error is a non-empty message that some validator returned. The field races exactly when some validator returned a promise. |
| `ValidationReducer.OutcomeOf` | lib/use-validation.ts:90 | `error ?? promise`. An error is stored as the error. Without one, the entry is the race exactly when the cycle races, and it carries that race's token. Otherwise the entry is `undefined`. |
| `ValidationReducer.ClassifySpec` | lib/use-validation.ts:64-74 | A sync error takes precedence. The error is that of the first validator, in declaration order, to return a non-empty string, regardless of promises. Otherwise there is no error. A race is started exactly when some validator returned a promise. An error is never empty. |
| `ValidationReducer.RunUpdate` | lib/use-validation.ts:63-96 | `validation` is rebuilt over exactly the fields of `values`, each holding `error ?? race`. The old race is cancelled only when the field has a sync error or a promise, and the slot then holds just the new race, or nothing for an error only. Other slots are untouched. Each new race gets a fresh, distinct token. |
| `ValidationReducer.SupersededRacesAreStale` | lib/use-validation.ts:76-83 | After a cycle with a sync error or a promise, the field's slot holds no race drawn before the cycle, only the one just started, if any. |
| `ValidationReducer.SyncTag` | lib/use-validation.ts:44-46 | The `sync` helper keeps the message and marks it eager exactly when it is non-empty. `undefined` passes through. |
| `ValidationReducer.Received` | lib/use-validation.ts:105 | `String(error)` for a reported message, which keeps the same text, and `undefined` otherwise. It is never a race. |
| `ValidationReducer.SyncCase` | lib/use-validation.ts:102-125 | A resolution is ignored while the field holds a sync error. Otherwise `validation[id]` becomes the resolved value and no other key changes. `id` is added to `validation` only by a reported message. `errors[id]` becomes the message only when it is eager and non-empty. Otherwise `errors` is unchanged, so a plain async error stays hidden. |
| `ValidationReducer.Deliver` | lib/use-validation.ts:80-87 | A resolution whose race no longer holds the field's cancel slot changes nothing. |
| `ValidationReducer.SyncKeepsSyncError` | lib/use-validation.ts:103 | A single resolution, for any field, leaves a field that holds a sync error with the same result and the same revealed error. |
| `ValidationReducer.SyncErrorSurvives` | lib/use-validation.ts:103 | While a field holds a sync error, any sequence of resolutions, in any order, leaves its result and its revealed error as they were. |
| `ValidationReducer.StaleDeliveriesIgnored` | lib/validation.ts:70-81 | Resolutions of races that were cancelled leave the state unchanged. |
| `ValidationReducer.ValidateCase` | lib/use-validation.ts:127-141 | After `validate(id)`, `errors[id]` is the result if it is a string and is missing otherwise. No other key changes. When the two already agree, `errors` is returned as it was. |
| `ValidationReducer.ValidateIdempotent` | lib/validation.ts:121-135 | Revealing a field twice is the same as revealing it once. |
| `ValidationReducer.StringResults` | lib/validation.ts:137-142 | The revealed errors are exactly the string-valued results: a field has an error exactly when its result is a string, and the error is that string. |
| `ValidationReducer.ValidateAfterValidateAll` | lib/use-validation.ts:143-148 | After every string result has been revealed, revealing any single field changes nothing. |
| `ValidationReducer.Invalid` | lib/use-validation.ts:206 | A waiting field makes the form invalid, and so does a non-empty error that 'validate-all' would reveal. With no field waiting, the form is invalid only if 'validate-all' would reveal a non-empty error. |
| `ValidationReducer.Waiting` | lib/use-validation.ts:201-203 | `waiting` has one flag per entry of `validation`, true exactly for a pending race. |
| `ValidationReducer.InvalidAfterUpdate` | lib/use-validation.ts:205-206 | After an update, `invalid` holds exactly when some field's validators gave a sync error or a promise. A field is waiting exactly when it raced without a sync error. |
| `ValidationEngine.Engine.constructor` | lib/use-validation.ts:170-176 | The reducer starts with the given validators and empty `errors`, `validation` and `cancel`. |
| `ValidationEngine.Engine.Update` | lib/use-validation.ts:63-100 | 'update' steps `validation` and `cancel` as `RunUpdate` does. It keeps `errors`. Each started race gets its own token, above every token drawn before, and the counter never goes down. A race whose token had left its slot before the update does not hold the slot after it, so supersession lasts across cycles. It writes `validation` only when the recomputed map differs. |
| `ValidationEngine.Engine.Sync` | lib/validation.ts:79-81 | A resolution steps the state by `Deliver`. The 'sync' case runs only for the race in the field's slot. |
| `ValidationEngine.Engine.Validate` | lib/validation.ts:121-135 | `validate[id]()` steps `errors` by the 'validate' case and keeps every token fresh. |
| `UseValidation.ValidateAllCase` | lib/use-validation.ts:143-163 | `errors` becomes the string-valued results. A continuation is stored when the form is valid and a callback is given. Otherwise the old continuation survives only if `errors` did not change, and it is dropped if they did. |
| `UseValidation.ContinuationOnlyWhenValid` | lib/use-validation.ts:150-158 | Calling `validate(onValid)` on an invalid form stores no continuation. The callback is not kept for later. |
| `UseValidation.Hook.constructor` | lib/use-validation.ts:170-177 | A fresh engine with empty state, and no continuation. |
| `UseValidation.Hook.ValidateAll` | lib/use-validation.ts:186-190 | `validate(onValid?)` steps `errors` and `onValid` by the 'validate-all' case. |
| `UseValidation.Hook.Clear` | lib/use-validation.ts:165-167 | 'clear' leaves no continuation stored. |
| `UseValidation.Hook.RunOnValidEffect` | lib/use-validation.ts:179 | The effect calls the stored continuation's callback, if any, and the continuation's 'clear' empties the slot. |
| `UseValidation.OnValidFiresOnce` | lib/use-validation.ts:152-158 | On a form whose fields produce no error and no promise, `validate(onValid)` makes the effect call `onValid` once. A second run of the effect calls nothing. |
| `PlainValidation.Hook.constructor` | lib/validation.ts:148-154 | A fresh engine with empty state. |
| `PlainValidation.Hook.ValidateAll` | lib/validation.ts:137-145 | `validate()` makes `errors` exactly the string-valued results. It writes them only when they differ. |
| `ValidationScenarios.LazyReveal` | tests/validation.spec.ts:70-112 | Rejected value: the form is invalid with no visible error until `validate.value()`, which shows "invalid". Back at the accepted value: the form is valid, and the next reveal removes the key. |
| `ValidationScenarios.SyncErrorWins` | tests/validation.spec.ts:221-231 | With an async and a sync validator, any resolutions in any order still leave the revealed error as the sync validator's "sync". |
| `ValidationScenarios.EagerError` | tests/validation.spec.ts:207-219 | The field waits on its race. A resolution tagged by `sync('invalid')` shows "invalid" without a reveal. |
| `ValidationScenarios.LazyAsyncError` | tests/validation.spec.ts:190-205 | A plain async error is recorded but hidden. The form is invalid and no longer waiting, and the error shows after `validate.value()`. |
| `ValidationScenarios.LatestRaceWins` | tests/validation.spec.ts:233-248 | After two updates, the first race's eager error arrives last and is dropped. No error shows and the form is valid. |
| `ValidationScenarios.EmptyCycleKeepsRace` | lib/use-validation.ts:76-87 | An update whose validators return nothing does not cancel the earlier race. That race's late error becomes the field's result and the form is invalid. |
| `ValidationScenarios.CancelledRaceStaysStale` | lib/use-validation.ts:76-87 | A race, then a cycle with only a sync error, which cancels the race, then a new race. The first race's late eager error is dropped. The field waits on the newest race and shows no error. |

## Left out

- Promises and the event loop: `Promise.race`, the reject-based cancel promise and the `.catch`. A resolution is an explicit event carrying its race's token. The model does not enumerate interleavings.
- A race resolving only once is not enforced. A second event with the live token would be processed again, which the promise machinery rules out.
- Rejection of a validator's own promise: the code dispatches nothing, so there is no event to model. The field keeps its pending result.
- Validator and callback code: a validator is an uninterpreted total function of the value and the field id. Thrown exceptions are not modelled, and the `sync` argument passed to validators appears only through `SyncTag`. A callback is known only by its identity.
- Engine.Update: calling a chain for a field with no registered validators throws in the code. Here it is a precondition.
- FormHookKeepInitial.Form.Update, FormHookLatestInitial.Form.Update: calling a setter for a key outside the mount-time record throws in the code. Here it is a precondition.
- Engine.Validate: `validate[id]` exists only for the keys of `values` at mount (`lib/use-validation.ts:192`, `lib/validation.ts:167`). The model accepts any id. For an id with no result, the 'validate' case leaves `errors[id]` missing.
- `lodash/isEqual` and `json-stable-stringify`: equality is Dafny's equality on values. Promises compare by identity, that is by token. The `stringify(values)` dependency that limits when 'update' is dispatched is left out, so the model lets 'update' run at any time.
- React plumbing: `useReducer`, `useEffect`, `useMemo`, `useCallback`, `useRef` and re-rendering. A state the reducer returns unchanged is modelled as an equal value, so reference identity of snapshots is not captured beyond the guards that skip a write.
- The order in which 'update' visits fields: each field's step touches only its own slot, so the order affects only which fresh token each race gets.
- Timers, `lib/useRace.ts`, the toggle, const and ref helpers, React context, and debug tracing, which are peripheral to the two state machines.

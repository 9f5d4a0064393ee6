# fall: a verified model of a dependency-injection bring-up engine

fall keeps three registries:

- a value store (named configuration values, filled by `RegisterValue` or
  from a `key=value` properties file);
- components by unique name;
- component names by concrete type.

`Register` and `RegisterName` add pointers (to values of any type; only a
struct's fields are wired, and a component of another kind completes
without wiring). `Start` then brings the application up in two phases:

1. **Phase one** visits the type index in map order. It wires every
   component that has not completed yet. Wiring a component (`processor`)
   works as follows:
   - it rejects a cycle;
   - it pushes the component's name on a stack;
   - for a struct, it resolves each field in declaration order:
     - a `value` tag injects a stored value, parsed or converted to the
       field's type;
     - a `name` tag wires the named component;
     - a `wire` tag wires the single component of exactly the field's type
       or, for an interface, the single implementor;
     - a target that has not completed is wired first, and the field then
       receives its pointer or a copy;
   - it pops the stack, marks the component completed and calls its `Init`
     hook.
2. **Phase two** visits the type index again and calls every component's
   `InitLast` hook.

`Get` looks a component up by name.

The model is organised as follows:

- **Engine state.** It lives in one class, `Fall.Context`, whose methods
  update it in place: the value store, the two indexes, the stack with its
  set, the completed set, the object memory and a log of hook calls.
- **Resolver.** Every resolver method is proved to compute exactly a
  function of module `Resolver`: `ProcessRun`, `FieldsRun`, `FieldRun` and
  `VisitRun`.
- **Properties.** What the bring-up guarantees is proved about those
  functions:
  - every component completes exactly once;
  - each component completes after the components its fields are wired to;
  - every tagged field holds its expected value;
  - the stack is restored;
  - the log holds exactly the `Init` calls in completion order, followed by
    the `InitLast` calls;
  - when every field has a plan, a bring-up from a fresh state succeeds
    exactly when the dependency graph has no cycle, and a cycle error
    reports a path of dependencies that closes on the reported component.
- **Outside help.** The Go type system's answers, which the engine gets by
  reflection, are taken as given tables (`Descriptors.Universe`):
  - interface satisfaction;
  - convertibility;
  - the float spellings that parse;
  - which types have `Init` and `InitLast`.
- **Failures.** Each panic of the resolver is a `Resolver.Error` value and
  each panic of registration a `Fall.RegistrationError` value, returned
  through `Outcome` or `Result`.

Modules:

- `base.dfy`: Option, Result and Outcome, and sequence helpers.
- `strconv.dfy`: base-10 `ParseInt`/`ParseUint` at a bit size, and `ParseBool`.
- `descriptors.dfy`: Go types, fields with their tags, values, objects, and the type-system tables.
- `naming.dfy`: the name `Register` derives from a type.
- `convert.dfy`: the `value` tag conversion.
- `properties.dfy`: one properties-file line, and loading lines into the store.
- `wiring.dfy`: the registry as a value; field resolution; what "wired", "completed in dependency order" and "hook log" mean.
- `resolver.dfy`: the resolver and both phases as functions of the state, and the lemmas about them.
- `cycles.dfy`: dependency cycles, what a cycle error reports, and when the bring-up succeeds.
- `fall.dfy`: the `Context` class with the engine's operations as methods.

## Model

| member | source | states |
|---|---|---|
| Fall.Context.constructor | fall.go:12-14 | the registries, the stack, the completed set and the log start empty, in a valid state |
| Fall.Context.LoadProperties | fall.go:36-43 | the store ends as `Load` of the lines: each line's key set to its value as a string, overriding silently; the first malformed line fails with that line, the lines before it staying stored |
| Fall.Context.RegisterValue | fall.go:46-51 | a name already in the store fails and leaves the store unchanged; otherwise the store gains exactly that entry |
| Fall.Context.ComponentsOf | fall.go:82 | the list kept for type t holds each component of exactly type t once |
| Fall.Context.RegisterName | fall.go:72-84 | a non-pointer fails; a name in use fails; both change nothing. Otherwise the name maps to the object, the name joins the end of its type's list, the object's memory is created if new, `Get(name)` returns it, and both indexes stay consistent |
| Fall.Context.Register | fall.go:53-70 | a non-pointer fails; an empty derived name (no package path, no type name) fails; failures change nothing. Otherwise, under the name PkgPath[.]Name, a name in use fails; a new name maps to the object, joins the end of its type's list, creates the object's memory if new, and `Get` returns it |
| Fall.Context.Get | fall.go:247-253 | none exactly for an unregistered name, otherwise the registered object |
| Fall.Context.ScanImplementors | fall.go:185-192 | visiting every registered type collects each component whose type implements t, once each |
| Fall.Context.FindTarget | fall.go:154-200 | the result is the strategy chain `Resolve`: name tag, else skip without a wire tag, else exact type, else the interface scan |
| Fall.Context.Plan | fall.go:107-200 | the result is `PlanOf`: the value tag first, then the component strategies, each failure with its own error |
| Fall.Context.Process | fall.go:90-227 | the outcome and new state are exactly `ProcessRun` of the old state: a cycle error if n is on the stack; else push, the fields in order, pop, mark completed, log Init |
| Fall.Context.WireFields | fall.go:99-102 | the field loop computes exactly `FieldsRun` from field 0 |
| Fall.Context.WireStep | fall.go:102-217 | one turn of the field loop: on failure the loop's result; on success the stack is unchanged and the rest of the loop is `FieldsRun` from i + 1 |
| Fall.Context.WireField | fall.go:104-216 | one field computes exactly `FieldRun`: skipped, written with its converted value, or given the target's pointer or a copy after the target is wired if it has not completed |
| Fall.Context.Push | fall.go:94-95 | n is appended to the stack and to its set; nothing else changes |
| Fall.Context.Pop | fall.go:221-222 | the last element of the stack and of its set is removed; nothing else changes |
| Fall.Context.MarkDone | fall.go:223-226 | n joins the completed set and the completion order, and its Init call is logged when its type has Init |
| Fall.Context.Finish | fall.go:221-226 | the state becomes `Completed` of the old state: popped, completed, Init logged |
| Fall.Context.SetField | fall.go:216 | field i of o receives v in object memory, so every holder of the pointer sees it; nothing else changes |
| Fall.Context.Start | fall.go:229-245 | on failure the result is phase one's `VisitRun` over the components visited. On success every component was visited once, all have completed, and the state is phase one's result with the log extended by one InitLast call per hooked component, each component visited once |
| Fall.Context.WireAll | fall.go:230-237 | phase one over the type index in unspecified map order computes `VisitRun` over the visited components; on success each component is visited exactly once |
| Fall.Context.WireType | fall.go:231-236 | the components of type k, in registration order, are processed unless completed; those gone through are a prefix of the type's registration list, the whole list on success, and the result is `VisitRun` over them |
| Fall.Context.VisitOne | fall.go:232-236 | one turn of phase one's inner loop: the component is processed unless completed, and the result is `VisitRun` extended by that component |
| Fall.Context.CallInitLast | fall.go:238-244 | phase two visits every component once and appends exactly their InitLast calls, in visiting order |
| Fall.Context.InitLastType | fall.go:239-243 | the components gone through are exactly the type's registration list, and the log gains their InitLast calls in that order |
| Resolver.PlanOf | fall.go:107-200 | the decision for one field never reports a cycle, and a field it wires names a registered component |
| Resolver.SoundRegister | fall.go:72-84 | registering a new name keeps the resolver's state sound |
| Resolver.StoreIndependent | fall.go:46-51 | changing the value store keeps the state sound and the indexes consistent |
| Resolver.ProcessRun | fall.go:90-227 | the result is sound; on success the stack is as it was, the completed set only grew, and n is in it |
| Resolver.FieldsRun | fall.go:102-217 | the result is sound; on success the stack is as it was and the completed set only grew |
| Resolver.FieldRun | fall.go:104-216 | the result is sound; on success the stack is as it was and the completed set only grew |
| Resolver.ProcessWired | fall.go:90-99 | after push and the fields: a failure is passed on, and success leaves n on top of the stack and completes it |
| Resolver.WiredTo | fall.go:209-216 | after the target's wiring: its failure is passed on unchanged; on success only object memory changes, and the state stays sound |
| Resolver.FieldDep | fall.go:202-216 | a field wired to d: the failure of d's wiring is passed on; on success the field receives d's pointer or a copy of d |
| Resolver.Written | fall.go:216 | writing a field keeps the state sound |
| Resolver.WrittenFrame | fall.go:216 | field i of o receives v: that one memory cell changes, so every holder of a pointer to o sees it; every other cell, object and part of the state is unchanged |
| Resolver.Pushed | fall.go:94-95 | n goes on top of the stack, nothing else changes, and n's fields are ready to be wired from field 0 |
| Resolver.Completed | fall.go:221-226 | the component leaves the top of the stack, joins the completed set and the end of the completion order, and the log grows by its Init call; registry and memory are unchanged |
| Resolver.ConvFailure | fall.go:114-138 | a failed conversion is reported as the resolver's error of the same kind, never a cycle |
| Resolver.CompletedSound | fall.go:221-226 | completing the component on top of the stack keeps the state sound and restores the stack below it |
| Resolver.ProcessProgress | fall.go:90-227 | on success the state has advanced: completed stays completed; fields only receive their expected values; each newly completed component completed after its dependencies with all tagged fields wired; the log grew by exactly their Init calls in completion order (failures: see the `Cycles` rows) |
| Resolver.FieldsProgress | fall.go:102-217 | from field i with the first i wired: on success every tagged field holds its expected value, all dependencies have completed, and the state has advanced |
| Resolver.FieldProgress | fall.go:104-216 | one field: on success it holds its expected value (when tagged), its dependency has completed and the state has advanced |
| Resolver.FieldWireProgress | fall.go:202-216 | a field wired to d: on success d has completed and the field holds d's pointer (or a copy) |
| Resolver.CompleteStep | fall.go:221-226 | completing n after its dependencies, with its fields wired, keeps the progress made |
| Resolver.VisitRun | fall.go:230-237 | phase one over a sequence of components is sound; on success the stack is as it was |
| Resolver.VisitNext | fall.go:231-236 | visiting one more component after a successful visit skips it if completed and processes it otherwise |
| Resolver.VisitRunAppend | fall.go:230-237 | visiting a then b is visiting a + b, unless a failed |
| Resolver.VisitProgress | fall.go:230-237 | on success every visited component has completed and the state has advanced |
| Resolver.VisitAll | fall.go:229-237 | a successful visit of every component completes all of them |
| Resolver.BringUp | fall.go:229-237 | from a fresh state, a successful visit of all components leaves each completed exactly once, each after its dependencies, every tagged field holding its expected value, and the log exactly the Init calls in completion order |
| Resolver.FromScratch | fall.go:229-237 | advancing from nothing completed to all completed gives a duplicate-free dependency order, full wiring and the Init log in that order |
| Wiring.Resolve | fall.go:154-200 | a found target is a registered component |
| Wiring.ResolveFound | fall.go:158-200 | a field is wired to d exactly when its name tag names d, or without one it has a wire tag and d is the only component of exactly its type, or, with none of those and an interface type, d is the only implementor |
| Wiring.ResolveAmbiguous | fall.go:172-198 | ambiguity exactly when there is a wire tag and no name tag, with several components of exactly the type, or none and several implementors of an interface |
| Wiring.ResolveNothing | fall.go:172-195 | nothing registered exactly when there is a wire tag and no name tag, no component of exactly the type, and a non-interface type or an interface without implementors |
| Wiring.ExactIndex | fall.go:82-83 | the type index holds exactly each type's components, once each |
| Wiring.IndexAdd | fall.go:80-83 | adding a new name at the end of its type's list keeps both indexes consistent |
| Wiring.OutsideStep | fall.go:230-237 | visiting one more type adds exactly its components, none visited before |
| Wiring.OutsideEnds | fall.go:230 | a walk of the type index starts with nothing visited and ends with every component visited |
| Wiring.ImplementorsStep | fall.go:188-192 | visiting one more type adds its components exactly when it implements the interface |
| Wiring.ProgressStep | fall.go:223-226 | completing n after its dependencies extends the completion order and logs exactly n's Init call |
| Wiring.ProgressTrans | fall.go:209-226 | progress made by a dependency's wiring and then by the component's composes |
| Wiring.AdvancedTrans | fall.go:209-226 | advancing twice is advancing |
| Wiring.InitEventsAppend | fall.go:224-226 | the Init calls of a + b are those of a, then those of b |
| Wiring.InitLastEventsAppend | fall.go:238-244 | the InitLast calls of a + b are those of a, then those of b |
| Naming.QualifiedName | fall.go:59-65 | empty exactly when package path and name are empty; the bare name without a package path; otherwise it starts with the path, has a dot right after it and ends with the name |
| Naming.QualifiedNameInjective | fall.go:59-69 | different (dot-free) type names or package paths give different registration names |
| Convert.ConvertValue | fall.go:112-141 | a converted value fits the field's type: the shape of its kind and, for numbers, the range of its bit size |
| Convert.ConvertValueSpec | fall.go:112-141 | a string into a string field is kept; a value of string kind into a pointer, struct, interface or other kind is unsupported; a value of a named string type converts into a string field and fails its assertion to `string` for every parsed kind; a value of another kind converts exactly when the type system allows it |
| Convert.IntFieldConversion | fall.go:122-123 | a string converts into an int field exactly when ParseInt at the field's bit size accepts it, and every in-range spelling converts to its number |
| Convert.UintFieldConversion | fall.go:124-125 | the same for unsigned fields with ParseUint |
| Convert.PortScenario | fall.go:122-132 | "8080" into an int field gives 8080; "abc" fails to convert |
| Strconv.ParseUint | fall.go:125 | a string is accepted exactly when it is a non-empty run of digits whose number is below 2^bits, and the result is that number |
| Strconv.ParseInt | fall.go:123 | a string is accepted exactly when, after one optional leading sign, it is a non-empty run of digits whose signed number lies in [-2^(bits-1), 2^(bits-1)); the result is that signed number |
| Strconv.ParseBool | fall.go:127 | an accepted spelling has one to five characters, and it means true exactly when it starts with 1, t or T; each one-character spelling is accepted |
| Strconv.ValueLeadingZero | fall.go:123-125 | a leading zero does not change the number a digit string denotes |
| Strconv.ParseUintLeadingZero | fall.go:125 | a leading zero does not change ParseUint's result: "08080" reads as 8080 |
| Strconv.ParseIntLeadingZero | fall.go:123 | a leading zero does not change ParseInt's result |
| Strconv.ParseIntPlus | fall.go:123 | a leading '+' does not change ParseInt's result: "+8080" reads as 8080 |
| Strconv.ParseIntDigits | fall.go:123 | a run of digits reads as its number when that is below 2^(bits-1), and with a '-' in front as its negation when that is at least -2^(bits-1); otherwise it is rejected |
| Strconv.ParseUintFormat | fall.go:125 | every number below 2^bits is read back from its decimal spelling |
| Strconv.ParseIntFormat | fall.go:123 | every in-range number is read back from its signed spelling |
| Strconv.RejectsNonDigit | fall.go:123-125 | a character that is not a digit (or a leading sign) is rejected by both parsers |
| Strconv.ParseUintRejectsSign | fall.go:125 | ParseUint rejects any sign |
| Strconv.ParseIntRejectsOverflow | fall.go:123 | 2^(bits-1) overflows ParseInt |
| Strconv.ParseUintRejectsOverflow | fall.go:125 | 2^bits overflows ParseUint |
| Strconv.ValueFormat | fall.go:123-125 | reading the decimal spelling of a number gives the number |
| Properties.Split | fall.go:38 | splitting always gives at least one piece, even for the empty line |
| Properties.SplitProperties | fall.go:38 | splitting gives one more piece than separators, no piece holds the separator, and joining restores the line |
| Properties.LineAsWritten | fall.go:38-42 | as written, a line reads past its pieces exactly when it has no '=', is rejected exactly when it has two or more, and otherwise gives a key and a value free of '=' that rebuild the line |
| Properties.LineWithoutSeparatorEscapesGuard | fall.go:38-42 | as written, every line without '=' passes the guard and then reads a missing second piece |
| Properties.PortLineEscapesGuard | fall.go:38-42 | the line "port" reads past the end of its pieces |
| Properties.ParseLine | fall.go:38-42 | a line reads as a key and a value, both free of '=', that rebuild the line; it fails with NoSeparator exactly when there is no '=' |
| Properties.ParseLineRoundTrip | fall.go:38-42 | a key and value without '=' are read back from `key=value` |
| Properties.ParseLineUnique | fall.go:38-42 | a line with one separator has one reading |
| Properties.ParseLineAgrees | fall.go:38-42 | on a well-formed line the corrected step and the code as written agree |
| Properties.Load | fall.go:36-43 | a load that stops names a malformed line of the input; a complete load keeps every stored key |
| Properties.LoadSucceeds | fall.go:36-43 | a load completes exactly when every line is a `key=value` pair |
| Properties.LoadAppend | fall.go:36-43 | loading a then b is loading a + b, unless a stopped |
| Properties.LoadLastWins | fall.go:42 | a later line for a key overrides any earlier value, with no duplicate check |
| Cycles.DepOfField | fall.go:154-216 | a field wired to d makes d a dependency of its component |
| Cycles.ProcessFailure | fall.go:90-92 | when wiring n fails and every field has a plan, the failure is a cycle error; a cycle error names a component on the reported stack, the stack extends the one wiring began above, and the reported path, from n up the stack to the named component, is a chain of dependencies |
| Cycles.FieldsFailure | fall.go:102-217 | the same for the fields of n from field i on, n on top of the stack |
| Cycles.FieldFailure | fall.go:104-216 | the same for one field; a field wired to d passes on d's failure with n in front of its path |
| Cycles.WiredDepFailure | fall.go:209-211 | a failure explained for d's wiring, d a dependency of n, is explained for n's |
| Cycles.VisitFailure | fall.go:230-237 | phase one's failures are explained the same way |
| Cycles.CycleErrorIsCycle | fall.go:90-92 | from an empty stack, when every field has a plan, phase one fails only with a cycle error, and the reported component and the stack from its position close a dependency cycle |
| Cycles.EdgeDescends | fall.go:209-226 | in a duplicate-free order with every component after its dependencies, a dependency comes earlier |
| Cycles.ChainDescends | fall.go:209-226 | along a chain of dependencies, positions in such an order strictly decrease |
| Cycles.TopoAcyclic | fall.go:209-226 | a complete such order rules out every dependency cycle |
| Cycles.SuccessAcyclic | fall.go:229-237 | a successful bring-up from a fresh state shows the dependency graph is acyclic |
| Cycles.BringUpIffAcyclic | fall.go:229-237 | from a fresh state, when every field has a plan, the bring-up succeeds exactly when the dependency graph is acyclic |
| Cycles.SecondFindsFirst | fall.go:90-92 | wiring y with x on the stack, y's field wired to x, is the cycle error for x on [x, y] |
| Cycles.FirstFindsItself | fall.go:90-216 | wiring x from a fresh state, x and y wired to each other, is that cycle error |
| Cycles.MutualWiring | fall.go:90-237 | bringing up x then y, wired to each other, fails with the cycle error for x on [x, y], and x, y, x is a dependency cycle |
| Cycles.MutualDeps | fall.go:154-216 | two struct components whose first fields are wired to each other form the dependency cycle x, y, x |
| Cycles.MutualNameTags | fall.go:154-160 | two components whose `name` tags name each other: the bring-up fails with the cycle error for X on [X, Y], and the graph is not acyclic |

## Left out

- Reading the properties file (`os.Open`, `bufio.Scanner`) is not modelled. `LoadProperties` takes the file's lines as a sequence.
- Reflection is replaced by declarative descriptors:
  - struct layouts and tags are data;
  - `Type.Implements`, `Type.ConvertibleTo`, the float spellings that `strconv.ParseFloat` accepts (with their values) and the presence of `Init`/`InitLast` methods are tables in `Descriptors.Universe`.
- Float parsing is not defined; it is given by the table above.
- Convert.ConvertValue: a value of a named string type is a `TypedVal` of string kind. It converts into a string field, and into a numeric or boolean field it fails with `NamedString` (the code's `v.(string)` panics). The model does not distinguish that runtime panic's text from the other failures.
- `reflect.Value.Set` panics on a tagged field that is not exported (fall.go:134, 141, 216). The model treats every field as settable: it writes the field.
- `reflect.Value.Set` panics when the target component is not assignable to the field's type (a `name` tag naming a component of another type, say). The model does not check assignability: the field receives the pointer or copy.
- Registering a nil pointer, and values that are nil, are not modelled.
- Map iteration order is not fixed by Go. `WireAll`, `CallInitLast` and `ScanImplementors` pick the next type nondeterministically, and their contracts hold for every order.
- The bodies of `Init` and `InitLast` are not modelled: each call is recorded as an event in the log.
- Panic texts are not modelled: each panic is an `Error` constructor with the names it reports.
- After a panic the Go globals keep whatever they held. The model returns `Fail` with the state reached at that point, as `ProcessRun` and `VisitRun` describe; it does not model recovering and calling again.
- Wiring.Expected: for a non-pointer component field it states only that the field received a copy, not the copy's contents. `FieldRun` itself models the exact contents, namely the target's memory at the moment the target has completed.
- The package's globals are one `Context` object rather than process-wide variables. Registration during `Start` (by an `Init` hook) is not modelled: the registry is fixed while `Start` runs.

## Findings

| source | as written | input that shows it | evidently intended | confidence | as-written member | corrected member |
|---|---|---|---|---|---|---|
| fall.go:38-42 | the guard `len(parts) == 0 \|\| len(parts) > 2` never sees 0 pieces (`strings.Split` always returns at least one), so a line without `=` passes it and `parts[1]` panics with index out of range instead of "Invalid properties line" | the line `port`, or a blank line | reject every line that does not split into exactly two pieces (`len(parts) != 2`) with the "Invalid properties line" panic | not executed | Properties.LineWithoutSeparatorEscapesGuard | Properties.ParseLine |

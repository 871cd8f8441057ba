# A verified model of the construction engine of `di`

`di` is a small dependency-injection runtime for Go. Programs register
dependency definitions in a global registry (`Inject`), optionally load a
YAML document that gives each dependency a configuration section
(`Parse`), and then call `Run`. `Run` walks the registry in order. For
each definition it:

- injects everything built so far into the definition's tagged fields;
- calls the definition's `New` with its own configuration section;
- injects again if `New` returned a different instance;
- records the result under the definition's name.

Finally it injects the whole map into the entry point and calls the entry
point's `Run`.

This project models that engine in Dafny and proves what it promises:

- `run.go` (the construction loop);
- `inject.go` (the tag-driven field injector);
- `optional.go` (the `Optional` box);
- `config.go` and `global.go` (configuration sections, their accessors,
  the global state and the name lookup);
- `di.go` and `compose.go` (the entry points).

Modules, one per source file:

- `Wrappers`: `Option`.
- `Errors`: the errors the modelled operations return, with Go's message text.
- `Optionals`: `Optional[T]` and `Get`, `Use`, `With`, as pure functions
  (value receivers).
- `Configs`: `Config` and its accessors, `emptyConfig` and `pickConfig`.
- `Injection`: dependencies, fields and `inject`. A pure specification
  (`Inject`) is paired with a method that writes fields in place
  (`InjectInto`).
- `Global`: the `global` state as a class, `globalConfig`, and
  `globalGet` as a loop that builds the name map.
- `Construction`: `run`. A pure function of a heap snapshot (`Construct`)
  records one `Round` per iteration: the map the definition was injected
  with, the config `New` got, and the instance injected afterwards.
  Methods that change the objects in place (`Build`, `Run`) are proved
  equal to that function.
- `RunProperties`: what the loop promises, proved about `Construct`.
- `Di` and `Compose`: the entry points.

A dependency is an object (`Injection.Instance`) with:

- a name;
- a dynamic type;
- its `New` as a function from `Config` to its own receiver, another
  instance, or an error;
- a sequence of fields the injector overwrites.

Go's pointer identity (`dep != idep`) is Dafny object identity.

Where the package's own documentation and its code differ, the model
follows the code:

- With a non-empty dependency map, a tagged `Optional` field whose name is
  missing is an error. The name check comes before the `Optional` branch
  (inject.go:30-33, 42). See `Injection.MissingOptionalFails`.
- No code sets `global.Running`, so the "already running" guard does not
  fire after a first `Run` (see Findings). Only a configuration document
  with a top-level `running` key can set it, through `Parse`.
- `Get` returns the registered definition, not the instance `New` built
  for it. See `Di.GetReturnsDefinitionNotProduct`.
- `emptyConfig` has the empty name, so a missing key in an absent section
  is reported as `di: ".key" is required`. See
  `Configs.EmptyConfigLacksEveryKey`.

## Model

| member | source | states |
|---|---|---|
| Errors.InjectorMessagesArePrefixed | inject.go:15-32 | every error the injector produces (missing name, recovered `reflect.Set` panic) has a message starting with "di/inject: " |
| Optionals.Optional.Get | optional.go:39-43 | an empty box gives (nil, false); a filled box gives its value and true |
| Optionals.Optional.Use | optional.go:12-16 | `f` is applied exactly when the box holds a value, and to that value |
| Optionals.Optional.With | optional.go:30-35 | a filled box gives exactly `f`'s error on the value; an empty box gives nil without calling `f` |
| Configs.Config.Any | config.go:17-23 | no error iff the key is in the section; then the stored value; otherwise nil and a "required" error naming section and key |
| Configs.Config.String | config.go:44-47 | the error is `Any`'s, unchanged, so it fails exactly when the key is absent; the value is the coercion of what `Any` returned |
| Configs.Config.Bool | config.go:50-53 | the error is `Any`'s, unchanged; the value is the coercion of what `Any` returned |
| Configs.Config.Int | config.go:56-59 | the error is `Any`'s, unchanged; the value is the coercion of what `Any` returned |
| Configs.Config.Float | config.go:62-65 | the error is `Any`'s, unchanged; the value is the coercion of what `Any` returned |
| Configs.Config.Duration | config.go:68-71 | the error is `Any`'s, unchanged; the value is the coercion of what `Any` returned |
| Configs.Config.EnvString | config.go:28-41 | a missing key gives `String`'s "required" error; a value not starting with "$" is returned as is; "$X" gives env[X], or "env is empty" when X is the empty name, unset, or set to "" |
| Configs.EnvStringExamples | config.go:28-41 | EnvString on concrete sections and environments: unset, empty and set variables, a bare "$", a plain value, a missing key |
| Configs.PickConfig | config.go:98-109 | `emptyConfig` when nothing was parsed or the section is absent; otherwise the config bound to the name and its section |
| Configs.PickConfigResolves | config.go:98-108 | a key resolves through pickConfig iff the document was parsed, has the section and the section has the key; then it yields the stored value |
| Configs.EmptyConfigLacksEveryKey | config.go:96 | every lookup on `emptyConfig` fails with a "required" error whose section name is empty |
| Injection.Wire | inject.go:40-51 | a plain field is set to the dependency; an `Optional` field gets the dependency in its inner slot; tag and type are kept |
| Injection.InjectFrom | inject.go:24-52 | the field loop never adds or removes fields |
| Injection.Fault | inject.go:30-33 | a tagged field has a fault iff its name is missing from the map or the dependency's type does not fit (the recovered `reflect.Set` panic); a fault is always an injector error |
| Injection.Inject | inject.go:10-55 | inject never adds or removes fields, and with an empty map returns nil and writes nothing |
| Injection.InjectInto | inject.go:10-55 | the fields written in place and the error returned are exactly those of the specification `Inject` |
| Injection.EmptyMapWritesNothing | inject.go:11-13 | with an empty map, inject returns nil and writes nothing, even into tagged fields |
| Injection.FirstFault | inject.go:24-33 | the first faulty field: every tagged field before it is present with a fitting type; it has a fault |
| Injection.InjectFromWrites | inject.go:24-52 | the loop writes exactly the tagged fields before the first faulty one; every other field, untagged ones included, is unchanged |
| Injection.InjectFromReports | inject.go:24-33 | the loop's error is the fault of the first faulty field, or nil when there is none |
| Injection.InjectFromInOrder | inject.go:24-52 | fields are processed in declaration order: written up to the first fault, which is the error returned, and untouched from it on |
| Injection.InjectSucceedsIff | inject.go:24-54 | with a non-empty map, inject succeeds iff every tagged field's name is present with a fitting type; then every tagged field is written and nothing else changes |
| Injection.InjectStopsAtFirstFault | inject.go:24-33 | a failing inject reports the first faulty field; the fields before it stay written and the rest are as they were |
| Injection.MissingOptionalFails | inject.go:30-46 | with a non-empty map, a tagged `Optional` field whose name is missing makes inject fail |
| Injection.InjectedFieldsHoldDependencies | inject.go:40-51 | after a successful inject, a tagged plain field holds exactly its dependency, and a tagged `Optional` field's Get yields it and true |
| Injection.InjectErrorsArePrefixed | inject.go:15-32 | every error inject returns reads "di/inject: ..." |
| Global.State.constructor | global.go:11-27 | the initial state: version "0", no sections, not running, nothing registered |
| Global.GlobalConfig | global.go:44-50 | the config bound to the name and its section when present, `emptyConfig` otherwise |
| Global.GlobalConfigResolves | global.go:44-50 | a key resolves through globalConfig iff the section exists and has the key; then it yields the stored value |
| Global.ByName | global.go:53-56 | the name map globalGet builds binds each name to a definition of that name |
| Global.ByNameHasRegistered | global.go:53-61 | the name map globalGet builds holds exactly the registered names |
| Global.ByNameLastWins | global.go:53-56 | with duplicate names, the map holds the last definition registered under the name |
| Global.Get | global.go:52-64 | fails with "not found" iff no registered definition has the name; otherwise returns the last definition registered under it, an element of the registry |
| Construction.Product | run.go:17-20 | what `New` returns for the definition's own section: its receiver, another instance, or (on failure) the definition; no contract of its own |
| Construction.Step | run.go:6-31 | one iteration as a function of the loop's state; no contract of its own, its properties are RunProperties.StepRound, StepError, StepSuccess, StepHeap and StepWiresProduct |
| Construction.Instantiate | run.go:17-31 | the part of an iteration after a successful injection; no contract of its own, its properties are stated through Step |
| Construction.Prefix | run.go:5-32 | the loop's state before iteration i; no contract of its own, its properties are RunProperties.RoundsFollowRegistry, FailureStopsConstruction and RoundCount |
| Construction.Advance | run.go:5-31 | iteration k, which changes nothing once an earlier one failed; no contract of its own, its property is Construction.FailureIsFinal |
| Construction.Advances | run.go:5-31 | while nothing has failed, iteration k is one `Step` on the state before it |
| Construction.Construct | run.go:3-34 | run returns no entry point iff the loop failed, and then the loop's error; its state is the loop's |
| Construction.FailureIsFinal | run.go:13-20 | once an iteration has failed, no later iteration changes anything |
| Construction.Iteration | run.go:6-31 | one iteration on the objects in place does what `Step` says: injection, `New`, re-injection, the new map |
| Construction.CallNew | run.go:17-31 | the part of an iteration after a successful injection does what `Instantiate` says |
| Construction.InjectRunnable | run.go:33 | injecting the entry point's local copy gives the fields and the error of `Inject` on the entry point |
| Construction.Build | run.go:4-31 | the loop over the registry ends in the state and the error `Prefix` gives after all definitions, with every object's fields as the model's heap says |
| Construction.Run | run.go:3-34 | run leaves the global state unchanged and returns the entry point, the error and the rounds of `Construct` on the objects' fields at entry; afterwards every object's fields are those the model computes |
| RunProperties.StepRound | run.go:13-29 | an iteration adds exactly one round: the definition injected with the current map; `New` called iff that injection succeeded, with the definition's own section; a second injection iff that injection succeeded and `New` returned an instance other than the definition, and then of that instance |
| RunProperties.StepError | run.go:13-29 | an iteration's error is the first injection's, else `New`'s, else the second injection's (into `New`'s result, with the same map); none when `New` returns the definition itself |
| RunProperties.StepHeap | run.go:13-29 | what an iteration writes: the definition's fields become those of the first injection; when `New` returned another instance, that instance's fields become those of a second injection with the same map; no other object changes |
| RunProperties.StepWiresProduct | run.go:13-29 | after a successful iteration with a non-empty map, every tagged field of what `New` returned holds the dependency its tag names in that map (a plain field the pointer, an `Optional` field its inner slot) |
| RunProperties.StepSuccess | run.go:13-31 | a successful iteration had a successful injection and `New`, and binds the name to what `New` returned |
| RunProperties.NextRoundFollows | run.go:5-31 | the iteration on definition k after k successful ones appends a round about definition k with the products of definitions 0..k-1, and on success extends the map with definition k's product |
| RunProperties.PrefixSteps | run.go:5-31 | while nothing has failed, iteration i runs on the state left by iteration i-1 |
| RunProperties.RoundsFollowRegistry | run.go:4-31 | round k is about definition k, with the map of products of definitions 0..k-1 and its own config section; every round but a failed last one called `New`; without failure there is one round per definition and the map binds each name to its last product |
| RunProperties.PreInjectionSeesEarlierNames | run.go:4-15 | the definition at position k is injected with a map whose names are exactly those of the definitions at positions 0..k-1 |
| RunProperties.FailureStopsConstruction | run.go:13-20 | when iteration k fails, run fails with that error after exactly k+1 rounds, so no later `New` is called; it called `New` iff its injection succeeded |
| RunProperties.FailedIterationIsLast | run.go:13-29 | the state after a failed iteration is the final state of the loop |
| RunProperties.RoundCount | run.go:5-31 | without failure, i iterations record i rounds |
| RunProperties.ProductsNames | run.go:31 | the constructed map holds exactly the names of the registered definitions |
| RunProperties.ProductsFollowByName | run.go:31 | the constructed map has the same names as globalGet's map, each bound to what `New` returned for the definition globalGet would return (a later definition with the same name overwrites) |
| RunProperties.InjectKeepsLayout | inject.go:24-52 | inject keeps the number, tags and types of fields and never writes an untagged field |
| RunProperties.LayoutIsPreserved | run.go:4-31 | the loop's own writes (its injections) change no object's field layout and no untagged field |
| RunProperties.StepKeepsLayout | run.go:13-29 | one iteration changes no object's field layout and no untagged field |
| RunProperties.InstantiateKeepsLayout | run.go:17-29 | the re-injection after `New` changes no object's field layout and no untagged field |
| RunProperties.SuccessfulRunInjectsRunnable | run.go:33 | after a loop without failure, the entry point is injected with the complete map and that injection's error is returned; `New` was called once per definition, in order |
| RunProperties.EmptyRunnableNeverFails | compose.go:3-11 | for an entry point without fields the final injection cannot fail: run returns exactly the loop's error |
| Di.Inject | di.go:48-50 | the definition is appended at the end of the registry; earlier entries and the rest of the state are unchanged |
| Di.ParsePath | di.go:54-58 | "di.yml" when no path is given, the first path otherwise |
| Di.Parse | global.go:29-42 | a file that cannot be opened or decoded gives "di/parse: <cause>" and no change; otherwise each key present in the document (`running`, `version`, `di`, `imports`) replaces that part of the state, and the registry is unchanged |
| Di.Run | di.go:64-73 | "di: already running" with no construction when the flag is set; otherwise run's error as is, and after successful construction the entry point's `Run` on the injected entry point; every object the loop can touch ends with the fields the model's heap gives |
| Di.IdleRun | di.go:80 | `Idle.Run` returns nil |
| Di.IdleRunOnlyReportsConstruction | di.go:80 | `Run` with `Idle` returns exactly the construction loop's error |
| Di.Get | di.go:84-86 | `Get` has `globalGet`'s contract: the last definition registered under the name, or "not found" |
| Di.GetReturnsDefinitionNotProduct | global.go:52-64 | `Get` yields the registered definition, while the construction loop binds the name to what `New` returned for it |
| Di.Must | di.go:90-92 | `Must` returns its value whatever the error |
| Di.Version | di.go:95-97 | `Version` is the state's version |
| Di.ConstructionRunsWhenRegistered | run.go:5-31 | with anything registered, the loop runs at least one iteration |
| Di.RunTwice | di.go:64-73 | as written, two `Run` calls leave the flag unset, and the second one constructs again whenever anything is registered |
| Di.RunOnce | di.go:64-73 | `Run` with the flag set before construction: otherwise as `Run`, objects' final fields included, and afterwards the flag is set |
| Di.RunOnceTwice | global.go:12-13 | with the flag set by the first call, a second call is refused with "already running" and constructs nothing |
| Compose.ComposerRun | compose.go:5 | `composer.Run` returns nil |
| Compose.Compose | compose.go:7-13 | the definitions are appended in argument order after the existing entries; then run over the whole registry with a field-less entry point, whose error is exactly the loop's; every object the loop can touch ends with the fields the model's heap gives |

## Left out

- Reading and decoding the YAML file are not modelled. `Di.Parse` takes the decoded document, or the cause of the failure, as a parameter (`load`).
- Di.Parse: a key present in the document replaces that part of the state wholesale, `running` included. The merge of a decoded map into the existing ordered map, and a partial update before a decode error, are not modelled.
- The `parse` of config.go and its `diGlobal`/`parsed` state are not modelled as an operation. `Configs.PickConfig` takes `parsed` and the sections as parameters.
- Configs.Config.String, Configs.Config.Bool, Configs.Config.Int, Configs.Config.Float, Configs.Config.Duration: the `cast` coercions come from a foreign library. Each is a parameter, so only the error behaviour is stated.
- Configs.Config.EnvString: `os.Getenv` is a map parameter; an unset variable, and the empty name (a value of exactly "$"), read as "".
- Injection.Fault: reflection and `unsafe` are replaced by field records. Assignability is type-name equality, so interface-typed fields are not modelled; any other panic inside the loop is not modelled either.
- Injection.Instance: every dependency, every instance a `New` returns, and the entry point are pointers to structs, as di.go:23 and di.go:46-47 ask; values of other kinds are not modelled. Once the map of injected dependencies is non-empty, a struct value registered as a dependency makes `Elem()` at inject.go:21 panic, and inject.go:15-19 recovers that into a "di/inject: reflect: ..." error that `Errors.Error` does not have; with an empty map inject.go:11-13 returns first, and the comparison `dep != idep` at run.go:22 then compares struct values, which panics unrecovered for a struct that is not comparable. An entry point that is not a struct fails the same way at inject.go:21-24.
- Injection.Instance: `New` is a pure function of its `Config`. It reads no field of its receiver, so it cannot use the dependencies injected into it just before the call, which is why run.go:13-15 injects first. It writes no object, and it gives the same result every time for the same section. RunProperties.LayoutIsPreserved and the final-fields clause of Construction.Run therefore cover only the injector's writes, not what a user's `New` writes.
- A `New` that returns nil and no error is not modelled: a factory returns its receiver, another instance, or an error.
- Construction.Run: Go does not fix whether `r` is read before or after `inject(&r, ...)` in `return r, inject(&r, injected)`. The model returns the injected copy.
- Global.Get: the type assertion `d.(T)` panics on a definition of another type. That is a precondition here.
- Di.Run: the entry point's `Run` is user code. It is a parameter, a function of the entry point's injected fields.
- Concurrency: the package has none.
- The example program under example/ (a database, an HTTP server, generated wiring) is library and I/O code.
- di_test.go calls a `New` function that the package does not define, so it is not a source of properties.

## Findings

| source | as written | input that shows it | evidently intended | confidence | as-written member | corrected member |
|---|---|---|---|---|---|---|
| di.go:64-73 | `Run` refuses to start when `global.Running` is set, but no code ever sets it; only a `running` key in the configuration document can (global.go:12-13 says it is meant to prevent a second `Run`) | two `Run` calls on a fresh state with one registered definition: the second call constructs everything again instead of failing | set `Running` once the guard has passed, so that a second `Run` fails with "di: already running" | not executed | Di.RunTwice | Di.RunOnceTwice |

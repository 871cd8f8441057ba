/**
 * inject.go, and the `Dependency` type of di.go that it writes into.
 *
 * A Go struct reached through a pointer is an `Instance`: its fields are a
 * sequence the injector updates in place, and pointer identity is object
 * identity. Reflection is replaced by the field records below: a field's
 * `di` tag ("" when it has none), its declared type, and what it holds.
 */
module Injection {
  import opened Wrappers
  import opened Errors
  import opened Configs
  import opened Optionals

  /** What a field holds: a pointer to a dependency, or an `Optional` box of one. */
  datatype Slot = Plain(target: Option<Instance>) | Boxed(box: Optional<Instance>)

  /**
   * A struct field: its `di` tag, the type of the pointer it holds (for a box,
   * the type of the box's slot), and its content. Untagged fields stand for
   * any other data; the injector never writes them.
   */
  datatype Field = Field(tag: string, ty: string, slot: Slot)

  /**
   * What a dependency's `New` returns: its own receiver (`Itself`), another
   * instance, or an error.
   */
  datatype NewResult = Itself | Built(instance: Instance) | Failed(error: Error)

  /**
   * A pointer to a struct. For a registered dependency, `name` is `Name()`,
   * `factory` is `New` and `ty` its dynamic type.
   */
  class Instance {
    const name: string
    const ty: string
    const factory: Config -> NewResult
    var fields: seq<Field>

    constructor (name: string, ty: string, factory: Config -> NewResult, fields: seq<Field>)
      ensures this.name == name && this.ty == ty && this.factory == factory && this.fields == fields
    {
      this.name := name;
      this.ty := ty;
      this.factory := factory;
      this.fields := fields;
    }

    /**
     * The address of a local struct that is not a dependency (the entry
     * point's copy taken by `&r`): it has no name and no constructor of its own.
     */
    constructor Local(fields: seq<Field>)
      ensures this.name == "" && this.fields == fields
    {
      this.name := "";
      this.ty := "";
      this.factory := (c: Config) => Failed(Raised(""));
      this.fields := fields;
    }
  }

  predicate Tagged(f: Field) {
    f.tag != ""
  }

  /** `f` after `d` has been written into it (into the box's slot for an `Optional`). */
  function Wire(f: Field, d: Instance): (w: Field)
    ensures w.tag == f.tag && w.ty == f.ty
    ensures f.slot.Plain? ==> w.slot == Plain(Some(d))
    ensures f.slot.Boxed? ==> w.slot == Boxed(Optional(Some(d)))
  {
    match f.slot
    case Plain(_) => f.(slot := Plain(Some(d)))
    case Boxed(_) => f.(slot := Boxed(Optional(Some(d))))
  }

  /**
   * Why writing into `f` from `deps` fails, if it does: its name is missing,
   * or the dependency's type does not fit the field (reflect.Set panics; the
   * deferred recover turns the panic into an error).
   */
  function Fault(f: Field, deps: map<string, Instance>): (e: Option<Error>)
    ensures e.None? <==> !Tagged(f) || (f.tag in deps && deps[f.tag].ty == f.ty)
    ensures e.Some? ==> FromInjector(e.value)
  {
    if !Tagged(f) then None
    else if f.tag !in deps then Some(NotExists(f.tag))
    else if deps[f.tag].ty != f.ty then Some(NotAssignable(deps[f.tag].ty, f.ty))
    else None
  }

  /** The field as it stands once injection has reached past it. */
  function Wired(f: Field, deps: map<string, Instance>): Field {
    if Tagged(f) && f.tag in deps then Wire(f, deps[f.tag]) else f
  }

  /** Two field lists differ at most in the contents of tagged fields. */
  ghost predicate SameLayout(a: seq<Field>, b: seq<Field>) {
    && |a| == |b|
    && forall j :: 0 <= j < |a| ==> a[j].tag == b[j].tag && a[j].ty == b[j].ty && (!Tagged(b[j]) ==> a[j] == b[j])
  }

  datatype InjectResult = InjectResult(fields: seq<Field>, err: Option<Error>)

  /**
   * The loop of inject.go from field `i` on: skip untagged fields, stop at the
   * first fault, otherwise write the dependency and go on.
   */
  function InjectFrom(fs: seq<Field>, deps: map<string, Instance>, i: nat): (r: InjectResult)
    requires i <= |fs|
    ensures |r.fields| == |fs|
    decreases |fs| - i
  {
    if i == |fs| then InjectResult(fs, None)
    else if !Tagged(fs[i]) then InjectFrom(fs, deps, i + 1)
    else if Fault(fs[i], deps).Some? then InjectResult(fs, Fault(fs[i], deps))
    else InjectFrom(fs[i := Wire(fs[i], deps[fs[i].tag])], deps, i + 1)
  }

  /** inject: nothing to do for an empty map, otherwise the loop over all fields. */
  function Inject(fs: seq<Field>, deps: map<string, Instance>): (r: InjectResult)
    ensures |r.fields| == |fs|
    ensures |deps| == 0 ==> r == InjectResult(fs, None)
  {
    if |deps| == 0 then InjectResult(fs, None) else InjectFrom(fs, deps, 0)
  }

  /** inject.go:10-55, writing into `target` field by field. */
  method InjectInto(target: Instance, deps: map<string, Instance>) returns (err: Option<Error>)
    modifies target
    ensures InjectResult(target.fields, err) == Inject(old(target.fields), deps)
  {
    if |deps| == 0 {
      return None;
    }
    var i := 0;
    while i < |target.fields|
      invariant 0 <= i <= |target.fields|
      invariant InjectFrom(target.fields, deps, i) == Inject(old(target.fields), deps)
      decreases |target.fields| - i
    {
      var f := target.fields[i];
      if f.tag == "" {
        i := i + 1;
        continue;
      }
      if f.tag !in deps {
        return Some(NotExists(f.tag));
      }
      var dep := deps[f.tag];
      if dep.ty != f.ty {
        return Some(NotAssignable(dep.ty, f.ty));
      }
      target.fields := target.fields[i := Wire(f, dep)];
      i := i + 1;
    }
    return None;
  }

  /** With an empty map inject succeeds and writes nothing, whatever the tags say. */
  lemma EmptyMapWritesNothing(fs: seq<Field>)
    ensures Inject(fs, map[]) == InjectResult(fs, None)
  {
  }

  /** The first field from `i` on that has a fault, or `|fs|` when there is none. */
  function FirstFault(fs: seq<Field>, deps: map<string, Instance>, i: nat): (k: nat)
    requires i <= |fs|
    ensures i <= k <= |fs|
    ensures forall j :: i <= j < k ==> Fault(fs[j], deps).None?
    ensures k < |fs| ==> Fault(fs[k], deps).Some?
    decreases |fs| - i
  {
    if i == |fs| || Fault(fs[i], deps).Some? then i else FirstFault(fs, deps, i + 1)
  }

  /**
   * The loop from `i` on writes exactly the fields in [i, k), with `k` the
   * first faulty field from `i` on, and leaves all others untouched.
   */
  lemma {:induction false} InjectFromWrites(fs: seq<Field>, deps: map<string, Instance>, i: nat)
    requires i <= |fs|
    ensures var r := InjectFrom(fs, deps, i); var k := FirstFault(fs, deps, i);
      forall j :: 0 <= j < |fs| ==> r.fields[j] == if i <= j < k then Wired(fs[j], deps) else fs[j]
    decreases |fs| - i
  {
    if i == |fs| {
    } else if !Tagged(fs[i]) {
      InjectFromWrites(fs, deps, i + 1);
    } else if Fault(fs[i], deps).Some? {
    } else {
      var next := fs[i := Wire(fs[i], deps[fs[i].tag])];
      InjectFromWrites(next, deps, i + 1);
      FirstFaultIgnoresEarlierFields(fs, next, deps, i + 1);
      var r, k := InjectFrom(next, deps, i + 1), FirstFault(fs, deps, i);
      assert k == FirstFault(next, deps, i + 1);
      forall j | 0 <= j < |fs|
        ensures r.fields[j] == if i <= j < k then Wired(fs[j], deps) else fs[j]
      {
        if j == i {
          assert r.fields[j] == next[j];
        }
      }
    }
  }

  /** The loop from `i` on reports the fault of the first faulty field from `i` on, if any. */
  lemma {:induction false} InjectFromReports(fs: seq<Field>, deps: map<string, Instance>, i: nat)
    requires i <= |fs|
    ensures var k := FirstFault(fs, deps, i);
      InjectFrom(fs, deps, i).err == if k < |fs| then Fault(fs[k], deps) else None
    decreases |fs| - i
  {
    if i == |fs| {
    } else if !Tagged(fs[i]) {
      InjectFromReports(fs, deps, i + 1);
    } else if Fault(fs[i], deps).Some? {
    } else {
      var next := fs[i := Wire(fs[i], deps[fs[i].tag])];
      InjectFromReports(next, deps, i + 1);
      FirstFaultIgnoresEarlierFields(fs, next, deps, i + 1);
    }
  }

  /** Both of the above, for the whole loop. */
  lemma InjectFromInOrder(fs: seq<Field>, deps: map<string, Instance>, i: nat)
    requires i <= |fs|
    ensures var r := InjectFrom(fs, deps, i); var k := FirstFault(fs, deps, i);
      && |r.fields| == |fs|
      && (forall j :: 0 <= j < |fs| ==> r.fields[j] == if i <= j < k then Wired(fs[j], deps) else fs[j])
      && r.err == (if k < |fs| then Fault(fs[k], deps) else None)
  {
    InjectFromWrites(fs, deps, i);
    InjectFromReports(fs, deps, i);
  }

  /** FirstFault from `i` on depends only on the fields from `i` on. */
  lemma {:induction false} FirstFaultIgnoresEarlierFields(a: seq<Field>, b: seq<Field>, deps: map<string, Instance>, i: nat)
    requires i <= |a| == |b|
    requires forall j :: i <= j < |a| ==> a[j] == b[j]
    ensures FirstFault(a, deps, i) == FirstFault(b, deps, i)
    decreases |a| - i
  {
    if i < |a| {
      FirstFaultIgnoresEarlierFields(a, b, deps, i + 1);
    }
  }

  /**
   * inject with a non-empty map succeeds exactly when every tagged field's
   * name is present with a fitting type; it then writes every tagged field
   * and nothing else.
   */
  lemma InjectSucceedsIff(fs: seq<Field>, deps: map<string, Instance>)
    requires |deps| > 0
    ensures var r := Inject(fs, deps);
      && (r.err.None? <==> forall j :: 0 <= j < |fs| ==> Fault(fs[j], deps).None?)
      && (r.err.None? ==> |r.fields| == |fs| && forall j :: 0 <= j < |fs| ==> r.fields[j] == Wired(fs[j], deps))
  {
    InjectFromInOrder(fs, deps, 0);
  }

  /**
   * With a non-empty map, a failing inject reports the first faulty field;
   * the fields before it have been written and the rest are as they were.
   */
  lemma InjectStopsAtFirstFault(fs: seq<Field>, deps: map<string, Instance>)
    requires |deps| > 0
    requires Inject(fs, deps).err.Some?
    ensures |Inject(fs, deps).fields| == |fs|
    ensures var r := Inject(fs, deps);
      exists k :: 0 <= k < |fs| && Fault(fs[k], deps).Some? && r.err == Fault(fs[k], deps)
        && (forall j :: 0 <= j < k ==> Fault(fs[j], deps).None? && r.fields[j] == Wired(fs[j], deps))
        && (forall j :: k <= j < |fs| ==> r.fields[j] == fs[j])
  {
    InjectFromInOrder(fs, deps, 0);
  }

  /** A missing name is an error for an `Optional` field too, as soon as the map is not empty. */
  lemma MissingOptionalFails(fs: seq<Field>, deps: map<string, Instance>, j: nat)
    requires |deps| > 0 && j < |fs|
    requires Tagged(fs[j]) && fs[j].slot.Boxed? && fs[j].tag !in deps
    ensures Inject(fs, deps).err.Some?
  {
    InjectFromInOrder(fs, deps, 0);
  }

  /**
   * After a successful inject, a tagged plain field points to its dependency
   * and a tagged `Optional` field's Get yields it.
   */
  lemma InjectedFieldsHoldDependencies(fs: seq<Field>, deps: map<string, Instance>, j: nat)
    requires |deps| > 0 && j < |fs| && Tagged(fs[j])
    requires Inject(fs, deps).err.None?
    ensures fs[j].tag in deps && |Inject(fs, deps).fields| == |fs|
    ensures var f := Inject(fs, deps).fields[j];
      && (fs[j].slot.Plain? ==> f.slot == Plain(Some(deps[fs[j].tag])))
      && (fs[j].slot.Boxed? ==> f.slot.Boxed? && f.slot.box.Get() == (Some(deps[fs[j].tag]), true))
  {
    InjectFromInOrder(fs, deps, 0);
  }

  /** An error from inject always reads "di/inject: ...". */
  lemma InjectErrorsArePrefixed(fs: seq<Field>, deps: map<string, Instance>)
    requires Inject(fs, deps).err.Some?
    ensures var m := Message(Inject(fs, deps).err.value); |m| >= 11 && m[..11] == "di/inject: "
  {
    InjectFromInOrder(fs, deps, 0);
    InjectorMessagesArePrefixed(Inject(fs, deps).err.value);
  }
}

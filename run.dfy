/**
 * run.go: the construction loop. For each registered definition in order:
 * inject what has been built so far, call `New` with the definition's own
 * config section, inject again if `New` returned another instance, and
 * record the result under the definition's name; finally inject the
 * whole map into the entry point.
 *
 * `Construct` is the loop as a function of the fields of every object it can
 * touch (a heap snapshot). It also records one `Round` per iteration: which
 * map the definition was injected with, whether and with which config `New`
 * was called, and which other instance was injected afterwards. The method
 * `Run` is proved to behave as `Construct` says.
 */
module Construction {
  import opened Wrappers
  import opened Errors
  import opened Configs
  import opened Injection
  import opened Global

  /** The fields of each object the loop can write. */
  type Heap = map<Instance, seq<Field>>

  /**
   * What one iteration did: it injected `dep` with `available`; if that
   * succeeded it called `dep.New` with config `called`; if `New` returned
   * another instance it injected that one, `reinjected`, with the same map.
   */
  datatype Round = Round(dep: Instance, available: map<string, Instance>, called: Option<Config>, reinjected: Option<Instance>)

  /** The loop's state: the objects' fields, the map `injected`, and the rounds so far. */
  datatype Progress = Progress(heap: Heap, injected: map<string, Instance>, rounds: seq<Round>)

  datatype StepOutcome = StepOutcome(progress: Progress, err: Option<Error>)

  /** What run returns (the injected entry point, or nil) and the state it leaves. */
  datatype RunOutcome = RunOutcome(progress: Progress, runnable: Option<seq<Field>>, err: Option<Error>)

  /** The instance `d.New` returns for its section, or `d` when it fails. */
  function Product(d: Instance, sections: Sections): Instance {
    match d.factory(GlobalConfig(sections, d.name))
    case Itself => d
    case Built(o) => o
    case Failed(_) => d
  }

  /** Every object run can write: the definitions and the instances their `New` returns. */
  function Universe(deps: seq<Instance>, sections: Sections): (u: set<Instance>)
    ensures forall i :: 0 <= i < |deps| ==> deps[i] in u && Product(deps[i], sections) in u
  {
    (set d | d in deps) + (set d | d in deps :: Product(d, sections))
  }

  /** The fields of `o` in `h`; objects outside the snapshot have none. */
  function FieldsOf(h: Heap, o: Instance): seq<Field> {
    if o in h then h[o] else []
  }

  function Snapshot(u: set<Instance>): (h: Heap)
    reads u
    ensures h.Keys == u
    ensures forall o :: o in u ==> h[o] == o.fields
  {
    map o | o in u :: o.fields
  }

  /**
   * One iteration of the loop (run.go:6-31) for definition `d`: inject what
   * has been built so far into `d`, then construct it.
   */
  function Step(d: Instance, sections: Sections, p: Progress): StepOutcome {
    var pre := Inject(FieldsOf(p.heap, d), p.injected);
    var p1 := p.(heap := p.heap[d := pre.fields]);
    if pre.err.Some? then StepOutcome(p1.(rounds := p.rounds + [Round(d, p.injected, None, None)]), pre.err)
    else Instantiate(d, sections, p1)
  }

  /**
   * run.go:17-31: call `New` with `d`'s section; inject into the result when
   * it is another instance; record it under `d`'s name.
   */
  function Instantiate(d: Instance, sections: Sections, p: Progress): StepOutcome {
    var config := GlobalConfig(sections, d.name);
    var made := d.factory(config);
    if made.Failed? then StepOutcome(p.(rounds := p.rounds + [Round(d, p.injected, Some(config), None)]), Some(made.error))
    else
      var o := Product(d, sections);
      if o == d then
        StepOutcome(p.(injected := p.injected[d.name := o], rounds := p.rounds + [Round(d, p.injected, Some(config), None)]), None)
      else
        var post := Inject(FieldsOf(p.heap, o), p.injected);
        var p3 := p.(heap := p.heap[o := post.fields], rounds := p.rounds + [Round(d, p.injected, Some(config), Some(o))]);
        if post.err.Some? then StepOutcome(p3, post.err)
        else StepOutcome(p3.(injected := p.injected[d.name := o]), None)
  }

  /** The loop's state before iteration `i`. */
  function Prefix(deps: seq<Instance>, sections: Sections, heap: Heap, i: nat): StepOutcome
    requires i <= |deps|
    decreases i, 0
  {
    if i == 0 then StepOutcome(Progress(heap, map[], []), None) else Advance(deps, sections, heap, i - 1)
  }

  /** Iteration `k`: nothing more happens once an earlier one has failed. */
  function Advance(deps: seq<Instance>, sections: Sections, heap: Heap, k: nat): StepOutcome
    requires k < |deps|
    decreases k, 1
  {
    var before := Prefix(deps, sections, heap, k);
    if before.err.Some? then before else Step(deps[k], sections, before.progress)
  }

  /** run: the whole loop, then the injection into the entry point `runnable`. */
  function Construct(deps: seq<Instance>, sections: Sections, heap: Heap, runnable: seq<Field>): (r: RunOutcome)
    ensures r.runnable.None? <==> Prefix(deps, sections, heap, |deps|).err.Some?
    ensures r.runnable.None? ==> r.err == Prefix(deps, sections, heap, |deps|).err
    ensures r.progress == Prefix(deps, sections, heap, |deps|).progress
  {
    var built := Prefix(deps, sections, heap, |deps|);
    if built.err.Some? then RunOutcome(built.progress, None, built.err)
    else
      var last := Inject(runnable, built.progress.injected);
      RunOutcome(built.progress, Some(last.fields), last.err)
  }

  /** While nothing has failed, iteration `k` is `Step` on the state before it. */
  lemma Advances(deps: seq<Instance>, sections: Sections, heap: Heap, k: nat)
    requires k < |deps|
    requires Prefix(deps, sections, heap, k).err.None?
    ensures Prefix(deps, sections, heap, k + 1) == Step(deps[k], sections, Prefix(deps, sections, heap, k).progress)
  {
  }

  /** An iteration after a failed one changes nothing. */
  lemma StaysFailed(deps: seq<Instance>, sections: Sections, heap: Heap, m: nat)
    requires 0 < m <= |deps|
    requires Prefix(deps, sections, heap, m - 1).err.Some?
    ensures Prefix(deps, sections, heap, m) == Prefix(deps, sections, heap, m - 1)
  {
  }

  /** Once an iteration has failed, no later iteration runs. */
  lemma {:induction false} FailureIsFinal(deps: seq<Instance>, sections: Sections, heap: Heap, k: nat, m: nat)
    requires k <= m <= |deps|
    requires Prefix(deps, sections, heap, k).err.Some?
    ensures Prefix(deps, sections, heap, m) == Prefix(deps, sections, heap, k)
    decreases m
  {
    if m > k {
      FailureIsFinal(deps, sections, heap, k, m - 1);
      StaysFailed(deps, sections, heap, m);
    }
  }

  /** `o`'s fields are those `h` records, for every object of `u`. */
  ghost predicate Mirrors(u: set<Instance>, h: Heap)
    reads u
  {
    forall o :: o in u ==> o in h && o.fields == h[o]
  }

  /** One iteration of run.go's loop (lines 6-31) on definition `dep`. */
  method Iteration(dep: Instance, sections: Sections, injected: map<string, Instance>, ghost p: Progress, ghost u: set<Instance>)
    returns (next: map<string, Instance>, err: Option<Error>, ghost q: Progress)
    requires dep in u && Product(dep, sections) in u
    requires injected == p.injected && Mirrors(u, p.heap)
    modifies dep, Product(dep, sections)
    ensures Step(dep, sections, p) == StepOutcome(q, err)
    ensures next == q.injected && Mirrors(u, q.heap)
  {
    err := InjectInto(dep, injected);
    q := p.(heap := p.heap[dep := dep.fields]);
    if err.Some? {
      q := q.(rounds := p.rounds + [Round(dep, injected, None, None)]);
      return injected, err, q;
    }
    next, err, q := CallNew(dep, sections, injected, q, u);
  }

  /** run.go:17-31 on definition `dep`, once it has been injected. */
  method CallNew(dep: Instance, sections: Sections, injected: map<string, Instance>, ghost p: Progress, ghost u: set<Instance>)
    returns (next: map<string, Instance>, err: Option<Error>, ghost q: Progress)
    requires Product(dep, sections) in u
    requires injected == p.injected && Mirrors(u, p.heap)
    modifies Product(dep, sections)
    ensures Instantiate(dep, sections, p) == StepOutcome(q, err)
    ensures next == q.injected && Mirrors(u, q.heap)
  {
    var name := dep.name;
    var config := GlobalConfig(sections, name);
    var made := dep.factory(config);
    if made.Failed? {
      q := p.(rounds := p.rounds + [Round(dep, injected, Some(config), None)]);
      return injected, Some(made.error), q;
    }
    var idep := if made.Itself? then dep else made.instance;
    if idep != dep {
      err := InjectInto(idep, injected);
      q := p.(heap := p.heap[idep := idep.fields], rounds := p.rounds + [Round(dep, injected, Some(config), Some(idep))]);
      if err.Some? {
        return injected, err, q;
      }
    } else {
      q := p.(rounds := p.rounds + [Round(dep, injected, Some(config), None)]);
    }
    next := injected[name := idep];
    q := q.(injected := next);
    err := None;
  }

  /** `inject(&r, injected)` (run.go:33): `r` is the entry point's local copy. */
  method InjectRunnable(r: seq<Field>, injected: map<string, Instance>) returns (fields: seq<Field>, err: Option<Error>)
    ensures InjectResult(fields, err) == Inject(r, injected)
  {
    var cell := new Instance.Local(r);
    err := InjectInto(cell, injected);
    fields := cell.fields;
  }

  /**
   * The loop of run.go (lines 6-31) over the definitions `deps`, from the
   * snapshot `heap` of the objects in `u`: it ends in the state `Prefix`
   * describes after all definitions, or at the first failure.
   */
  method Build(deps: seq<Instance>, sections: Sections, ghost u: set<Instance>, ghost heap: Heap)
    returns (injected: map<string, Instance>, err: Option<Error>, ghost p: Progress)
    requires forall i :: 0 <= i < |deps| ==> deps[i] in u && Product(deps[i], sections) in u
    requires Mirrors(u, heap)
    modifies u
    ensures Prefix(deps, sections, heap, |deps|) == StepOutcome(p, err)
    ensures injected == p.injected && Mirrors(u, p.heap)
  {
    injected, err := map[], None;
    p := Progress(heap, map[], []);
    var i := 0;
    while i < |deps| && err.None?
      invariant 0 <= i <= |deps|
      invariant Prefix(deps, sections, heap, i) == StepOutcome(p, err)
      invariant injected == p.injected && Mirrors(u, p.heap)
    {
      Advances(deps, sections, heap, i);
      injected, err, p := Iteration(deps[i], sections, injected, p, u);
      i := i + 1;
    }
    if err.Some? {
      FailureIsFinal(deps, sections, heap, i, |deps|);
    }
  }

  /** run.go:4-34 over the registry and the config sections of `g`. */
  method Run(g: State, zero: seq<Field>) returns (runnable: Option<seq<Field>>, err: Option<Error>, ghost rounds: seq<Round>)
    modifies Universe(g.deps, g.sections)
    ensures unchanged(g)
    ensures var out := Construct(g.deps, g.sections, old(Snapshot(Universe(g.deps, g.sections))), zero);
      && runnable == out.runnable && err == out.err && rounds == out.progress.rounds
      && forall o :: o in Universe(g.deps, g.sections) ==> o.fields == FieldsOf(out.progress.heap, o)
  {
    ghost var u := Universe(g.deps, g.sections);
    var injected;
    ghost var p;
    injected, err, p := Build(g.deps, g.sections, u, Snapshot(u));
    rounds := p.rounds;
    if err.Some? {
      return None, err, rounds;
    }
    var fields;
    fields, err := InjectRunnable(zero, injected);
    runnable := Some(fields);
  }
}

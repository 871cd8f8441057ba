/**
 * di.go: the package's entry points. `Inject` registers a definition,
 * `Parse` picks the configuration file, `Run` guards on `Running`, runs the
 * construction loop and then the entry point's own `Run`; `Get`, `Must`,
 * `Version` and `Idle.Run` are thin helpers.
 *
 * The entry point's `Run` is user code: it is a parameter, a function of the
 * entry point's injected fields. Reading and decoding the file are a
 * parameter too (`load`), whose result is the decoded document or the
 * cause of the failure.
 */
module Di {
  import opened Wrappers
  import opened Errors
  import opened Configs
  import Injection
  import Global
  import Construction
  import RunProperties

  /** Inject: `d` goes at the end of the registry; nothing else changes. */
  method Inject(g: Global.State, d: Injection.Instance)
    modifies g
    ensures g.deps == old(g.deps) + [d]
    ensures |g.deps| == |old(g.deps)| + 1 && g.deps[..|old(g.deps)|] == old(g.deps)
    ensures g.running == old(g.running) && g.version == old(g.version)
    ensures g.sections == old(g.sections) && g.imports == old(g.imports)
  {
    g.deps := g.deps + [d];
    assert g.deps[..|old(g.deps)|] == old(g.deps);
  }

  /** The file Parse reads: "di.yml" when no path is given, else the first one. */
  function ParsePath(paths: seq<string>): (path: string)
    ensures paths == [] ==> path == "di.yml"
    ensures paths != [] ==> path == paths[0]
    ensures path in paths || (paths == [] && path == "di.yml")
  {
    if |paths| == 0 then "di.yml" else paths[0]
  }

  /**
   * The top-level keys of a decoded document, each present or absent. Besides
   * the tagged "version", "di" and "imports", the decoder also fills the
   * untagged exported field `Running` from a "running" key.
   */
  datatype Document = Document(running: Option<bool>, version: Option<string>, deps: Option<Sections>, imports: Option<seq<string>>)

  /** What opening and decoding a file gives: a document, or the cause of the failure. */
  datatype Loaded = Decoded(doc: Document) | Unreadable(cause: string)

  /**
   * Parse: load the chosen file into the global state. A key present in the
   * document replaces that part of the state; an absent one leaves it. A
   * failure is reported as "di/parse: <cause>" and changes nothing.
   */
  method Parse(g: Global.State, paths: seq<string>, load: string -> Loaded) returns (err: Option<Error>)
    modifies g
    ensures var l := load(ParsePath(paths));
      && (l.Unreadable? ==> err == Some(ParseFailed(l.cause)) && unchanged(g))
      && (l.Decoded? ==>
            && err.None?
            && g.running == (if l.doc.running.Some? then l.doc.running.value else old(g.running))
            && g.version == (if l.doc.version.Some? then l.doc.version.value else old(g.version))
            && g.sections == (if l.doc.deps.Some? then l.doc.deps.value else old(g.sections))
            && g.imports == (if l.doc.imports.Some? then l.doc.imports.value else old(g.imports))
            && g.deps == old(g.deps))
  {
    var path := ParsePath(paths);
    var loaded := load(path);
    if loaded.Unreadable? {
      return Some(ParseFailed(loaded.cause));
    }
    var doc := loaded.doc;
    if doc.running.Some? {
      g.running := doc.running.value;
    }
    if doc.version.Some? {
      g.version := doc.version.value;
    }
    if doc.deps.Some? {
      g.sections := doc.deps.value;
    }
    if doc.imports.Some? {
      g.imports := doc.imports.value;
    }
    err := None;
  }

  /**
   * Run: "di: already running" before any construction when `running` is
   * set; otherwise the construction loop over the registry with the entry
   * point's zero value `zero`, whose error is returned as is, and after a
   * successful construction the result of `main` on the injected entry point.
   */
  method Run(g: Global.State, zero: seq<Injection.Field>, main: seq<Injection.Field> -> Option<Error>)
    returns (err: Option<Error>, ghost rounds: seq<Construction.Round>)
    modifies Construction.Universe(g.deps, g.sections)
    ensures unchanged(g)
    ensures g.running ==>
      err == Some(AlreadyRunning) && rounds == [] && unchanged(Construction.Universe(g.deps, g.sections))
    ensures !g.running ==>
      var out := Construction.Construct(g.deps, g.sections, old(Construction.Snapshot(Construction.Universe(g.deps, g.sections))), zero);
      && rounds == out.progress.rounds
      && (out.err.Some? ==> err == out.err)
      && (out.err.None? ==> out.runnable.Some? && err == main(out.runnable.value))
      && forall o :: o in Construction.Universe(g.deps, g.sections) ==> o.fields == Construction.FieldsOf(out.progress.heap, o)
  {
    if g.running {
      return Some(AlreadyRunning), [];
    }
    var runnable;
    runnable, err, rounds := Construction.Run(g, zero);
    if err.Some? {
      return err, rounds;
    }
    err := main(runnable.value);
  }

  /** Idle.Run: the entry point that does nothing. */
  function IdleRun(fields: seq<Injection.Field>): (err: Option<Error>)
    ensures err.None?
  {
    None
  }

  /** Run with Idle: whatever it returns comes from the construction loop. */
  lemma IdleRunOnlyReportsConstruction(deps: seq<Injection.Instance>, sections: Sections, heap: Construction.Heap)
    ensures var out := Construction.Construct(deps, sections, heap, []);
      (if out.err.Some? then out.err else IdleRun(out.runnable.value)) == Construction.Prefix(deps, sections, heap, |deps|).err
  {
    RunProperties.EmptyRunnableNeverFails(deps, sections, heap);
  }

  /**
   * Get: delegates to globalGet. The result is the registered definition
   * last bound to `name`, not the instance its `New` returned.
   */
  method Get(g: Global.State, name: string, ty: string) returns (d: Injection.Instance?, err: Option<Error>)
    requires name in Global.ByName(g.deps) ==> Global.ByName(g.deps)[name].ty == ty
    ensures err.None? <==> exists j :: 0 <= j < |g.deps| && g.deps[j].name == name
    ensures err.Some? ==> err == Some(NotFound(name)) && d == null
    ensures err.None? ==> d != null && d.ty == ty && Global.LastNamed(g.deps, name, d)
  {
    d, err := Global.Get(g, name, ty);
  }

  /**
   * What the construction loop keeps under `name` is what `New` returned for
   * the definition Get returns; the two differ whenever that `New` built a
   * fresh instance.
   */
  lemma GetReturnsDefinitionNotProduct(deps: seq<Injection.Instance>, sections: Sections, name: string)
    requires name in Global.ByName(deps)
    ensures name in RunProperties.Products(deps, sections)
    ensures RunProperties.Products(deps, sections)[name] == Construction.Product(Global.ByName(deps)[name], sections)
    ensures Global.LastNamed(deps, name, Global.ByName(deps)[name])
  {
    RunProperties.ProductsFollowByName(deps, sections, name);
    Global.ByNameLastWins(deps, name);
  }

  /** Must: the value, whatever the error. */
  function Must<T>(v: T, err: Option<Error>): (r: T)
    ensures r == v
  {
    v
  }

  /** Version: the version of the loaded state. */
  function Version(g: Global.State): (v: string)
    reads g
    ensures v == g.version
  {
    g.version
  }

  /** With a non-empty registry the construction loop always runs at least one iteration. */
  lemma ConstructionRunsWhenRegistered(deps: seq<Injection.Instance>, sections: Sections, heap: Construction.Heap)
    requires 0 < |deps|
    ensures 0 < |Construction.Prefix(deps, sections, heap, |deps|).progress.rounds|
  {
    RunProperties.RoundsFollowRegistry(deps, sections, heap, |deps|);
  }

  /**
   * Run as written, twice on the same state: nothing sets `running`, so the
   * second call is not refused; with anything registered it constructs again.
   */
  method RunTwice(g: Global.State, zero: seq<Injection.Field>, main: seq<Injection.Field> -> Option<Error>)
    returns (first: Option<Error>, second: Option<Error>, ghost secondRounds: seq<Construction.Round>)
    requires !g.running
    modifies Construction.Universe(g.deps, g.sections)
    ensures !g.running
    ensures 0 < |g.deps| ==> 0 < |secondRounds|
  {
    ghost var rounds;
    first, rounds := Run(g, zero, main);
    label again:
    second, secondRounds := Run(g, zero, main);
    if 0 < |g.deps| {
      ConstructionRunsWhenRegistered(g.deps, g.sections, old@again(Construction.Snapshot(Construction.Universe(g.deps, g.sections))));
    }
  }

  /**
   * Run as its `running` flag means it: set the flag before constructing,
   * so that a second call is refused.
   */
  method RunOnce(g: Global.State, zero: seq<Injection.Field>, main: seq<Injection.Field> -> Option<Error>)
    returns (err: Option<Error>, ghost rounds: seq<Construction.Round>)
    modifies g, Construction.Universe(g.deps, g.sections)
    ensures g.running
    ensures g.deps == old(g.deps) && g.sections == old(g.sections)
    ensures g.version == old(g.version) && g.imports == old(g.imports)
    ensures old(g.running) ==>
      err == Some(AlreadyRunning) && rounds == [] && unchanged(Construction.Universe(g.deps, g.sections))
    ensures !old(g.running) ==>
      var out := Construction.Construct(g.deps, g.sections, old(Construction.Snapshot(Construction.Universe(g.deps, g.sections))), zero);
      && rounds == out.progress.rounds
      && (out.err.Some? ==> err == out.err)
      && (out.err.None? ==> out.runnable.Some? && err == main(out.runnable.value))
      && forall o :: o in Construction.Universe(g.deps, g.sections) ==> o.fields == Construction.FieldsOf(out.progress.heap, o)
  {
    if g.running {
      return Some(AlreadyRunning), [];
    }
    g.running := true;
    var runnable;
    runnable, err, rounds := Construction.Run(g, zero);
    if err.Some? {
      return err, rounds;
    }
    err := main(runnable.value);
  }

  /** The corrected Run, twice on the same state: the second call is refused. */
  method RunOnceTwice(g: Global.State, zero: seq<Injection.Field>, main: seq<Injection.Field> -> Option<Error>)
    returns (first: Option<Error>, second: Option<Error>, ghost secondRounds: seq<Construction.Round>)
    requires !g.running
    modifies g, Construction.Universe(g.deps, g.sections)
    ensures g.running
    ensures second == Some(AlreadyRunning) && secondRounds == []
  {
    ghost var rounds;
    first, rounds := RunOnce(g, zero, main);
    second, secondRounds := RunOnce(g, zero, main);
  }
}

/**
 * global.go, together with the registry `globalDeps` of di.go: the
 * process-wide state, the config resolver the engine uses, and the
 * name lookup behind `Get`.
 */
module Global {
  import opened Wrappers
  import opened Errors
  import opened Configs
  import opened Injection

  /** The `global` variable of global.go and `globalDeps` of di.go. */
  class State {
    var running: bool            // Running: meant to stop a second Run
    var version: string          // Version of the dependencies state
    var sections: Sections       // Deps: each dependency's config section
    var imports: seq<string>     // Imports: carried, not interpreted
    var deps: seq<Instance>      // globalDeps, in registration order

    /** The initial state: version "0", no sections, not running, nothing registered. */
    constructor ()
      ensures !running && version == "0" && sections == map[] && imports == [] && deps == []
    {
      running := false;
      version := "0";
      sections := map[];
      imports := [];
      deps := [];
    }
  }

  /** globalConfig: the section of `name`, or `EmptyConfig` when there is none. */
  function GlobalConfig(sections: Sections, name: string): (c: Config)
    ensures name in sections ==> c == Config(name, sections[name])
    ensures name !in sections ==> c == EmptyConfig
  {
    if name !in sections then EmptyConfig else Config(name, sections[name])
  }

  /** A key resolves through globalConfig exactly when the section has it. */
  lemma GlobalConfigResolves(sections: Sections, name: string, key: string)
    ensures GlobalConfig(sections, name).Any(key).1.None? <==> name in sections && key in sections[name]
    ensures name in sections && key in sections[name] ==> GlobalConfig(sections, name).Any(key).0 == sections[name][key]
  {
  }

  /** The name-to-definition map globalGet builds: a later registration overwrites an earlier one. */
  function ByName(deps: seq<Instance>): (index: map<string, Instance>)
    ensures forall n :: n in index ==> index[n].name == n
  {
    if deps == [] then map[]
    else ByName(deps[..|deps| - 1])[deps[|deps| - 1].name := deps[|deps| - 1]]
  }

  /** `d` is the last definition in `deps` registered under `name`. */
  ghost predicate LastNamed(deps: seq<Instance>, name: string, d: Instance) {
    exists j :: 0 <= j < |deps| && deps[j] == d && d.name == name
      && forall l :: j < l < |deps| ==> deps[l].name != name
  }

  /** The names in ByName are exactly the registered names. */
  lemma {:induction false} ByNameHasRegistered(deps: seq<Instance>, name: string)
    ensures name in ByName(deps) <==> exists j :: 0 <= j < |deps| && deps[j].name == name
  {
    if deps != [] {
      var init, last := deps[..|deps| - 1], |deps| - 1;
      ByNameHasRegistered(init, name);
      if deps[last].name != name {
        if name in ByName(init) {
          var j :| 0 <= j < |init| && init[j].name == name;
          assert deps[j] == init[j];
        }
        if exists j :: 0 <= j < |deps| && deps[j].name == name {
          var j :| 0 <= j < |deps| && deps[j].name == name;
          assert init[j] == deps[j];
        }
      }
    }
  }

  /** Each name in ByName is bound to the last definition registered under it. */
  lemma {:induction false} ByNameLastWins(deps: seq<Instance>, name: string)
    requires name in ByName(deps)
    ensures LastNamed(deps, name, ByName(deps)[name])
  {
    var init, last := deps[..|deps| - 1], |deps| - 1;
    if deps[last].name == name {
      assert LastNamed(deps, name, deps[last]);
    } else {
      assert name in ByName(init);
      ByNameLastWins(init, name);
      var j :| 0 <= j < |init| && init[j] == ByName(init)[name] && init[j].name == name
        && forall l :: j < l < |init| ==> init[l].name != name;
      assert deps[j] == init[j];
    }
  }

  /**
   * globalGet: the last definition registered under `name`, or an error.
   * It returns a registered definition, not what the engine constructed from it.
   * Go's type assertion `d.(T)` panics on a definition of another type; that is
   * this method's precondition.
   */
  method Get(g: State, name: string, ty: string) returns (d: Instance?, err: Option<Error>)
    requires name in ByName(g.deps) ==> ByName(g.deps)[name].ty == ty
    ensures err.None? <==> exists j :: 0 <= j < |g.deps| && g.deps[j].name == name
    ensures err.Some? ==> err == Some(NotFound(name)) && d == null
    ensures err.None? ==> d != null && d.ty == ty && LastNamed(g.deps, name, d)
  {
    var index: map<string, Instance> := map[];
    var i := 0;
    while i < |g.deps|
      invariant 0 <= i <= |g.deps|
      invariant index == ByName(g.deps[..i])
    {
      assert g.deps[..i + 1][..i] == g.deps[..i];
      index := index[g.deps[i].name := g.deps[i]];
      i := i + 1;
    }
    assert g.deps[..i] == g.deps;
    ByNameHasRegistered(g.deps, name);
    if name !in index {
      return null, Some(NotFound(name));
    }
    ByNameLastWins(g.deps, name);
    return index[name], None;
  }
}

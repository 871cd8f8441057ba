/**
 * compose.go: register several definitions at once and run the
 * construction loop with an entry point that has no fields and does nothing.
 */
module Compose {
  import opened Wrappers
  import opened Errors
  import Injection
  import Global
  import Construction
  import RunProperties

  /** composer.Run: the entry point of compose does nothing. */
  function ComposerRun(fields: seq<Injection.Field>): (err: Option<Error>)
    ensures err.None?
  {
    None
  }

  /**
   * compose: append `ds` to the registry in argument order, then run the
   * construction loop over the whole registry with the field-less entry
   * point; its error, or none. `composer.Run` is not called.
   */
  method Compose(g: Global.State, ds: seq<Injection.Instance>) returns (err: Option<Error>, ghost rounds: seq<Construction.Round>)
    modifies g, Construction.Universe(g.deps + ds, g.sections)
    ensures g.deps == old(g.deps) + ds
    ensures g.running == old(g.running) && g.version == old(g.version)
    ensures g.sections == old(g.sections) && g.imports == old(g.imports)
    ensures var heap := old(Construction.Snapshot(Construction.Universe(g.deps + ds, g.sections)));
      var out := Construction.Construct(g.deps, g.sections, heap, []);
      && err == Construction.Prefix(g.deps, g.sections, heap, |g.deps|).err
      && err == out.err && rounds == out.progress.rounds
      && forall o :: o in Construction.Universe(g.deps, g.sections) ==> o.fields == Construction.FieldsOf(out.progress.heap, o)
  {
    ghost var u := Construction.Universe(g.deps + ds, g.sections);
    var i := 0;
    while i < |ds|
      invariant 0 <= i <= |ds|
      invariant g.deps == old(g.deps) + ds[..i]
      invariant g.running == old(g.running) && g.version == old(g.version)
      invariant g.sections == old(g.sections) && g.imports == old(g.imports)
      invariant unchanged(u)
    {
      g.deps := g.deps + [ds[i]];
      assert ds[..i + 1] == ds[..i] + [ds[i]];
      i := i + 1;
    }
    assert ds[..i] == ds;
    var runnable;
    runnable, err, rounds := Construction.Run(g, []);
    RunProperties.EmptyRunnableNeverFails(g.deps, g.sections, old(Construction.Snapshot(Construction.Universe(g.deps + ds, g.sections))));
  }
}

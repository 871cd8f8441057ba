/**
 * What run.go's loop promises, proved about the functions of `Construction`:
 * the map each definition is injected with, the order of the `New` calls,
 * where a failure stops the loop, and what the entry point receives.
 */
module RunProperties {
  import opened Wrappers
  import opened Errors
  import opened Optionals
  import opened Configs
  import opened Injection
  import opened Global
  import opened Construction

  /**
   * The map `injected` after a successful pass over `deps`: each name is
   * bound to what `New` returned for the last definition of that name.
   */
  function Products(deps: seq<Instance>, sections: Sections): map<string, Instance> {
    if deps == [] then map[]
    else
      var last := deps[|deps| - 1];
      Products(deps[..|deps| - 1], sections)[last.name := Product(last, sections)]
  }

  /**
   * Round `r` is what iteration `k` over `deps` can have recorded: it is
   * about `deps[k]`, whose injection saw what the earlier definitions had
   * produced; `New`, if called, got `deps[k]`'s own section; and the
   * instance injected afterwards, if any, is the other instance `New` returned.
   */
  ghost predicate Faithful(r: Round, deps: seq<Instance>, sections: Sections, k: nat)
    requires k < |deps|
  {
    && r.dep == deps[k]
    && r.available == Products(deps[..k], sections)
    && (r.called.Some? ==> r.called.value == GlobalConfig(sections, deps[k].name))
    && (r.reinjected.Some? ==> r.called.Some? && r.reinjected.value == Product(deps[k], sections) != deps[k])
  }

  /** The objects of `before` are still there in `after`, with the same tags and types, untagged fields untouched. */
  ghost predicate KeepsLayout(before: Heap, after: Heap) {
    forall o :: o in before ==> o in after && SameLayout(before[o], after[o])
  }

  /**
   * One iteration adds exactly one round (run.go:10-29): `d` injected with
   * the current map; `New` called, with `d`'s section, exactly when that
   * injection succeeded; a second injection, with the same map, exactly when
   * `New` returned another instance.
   */
  lemma StepRound(d: Instance, sections: Sections, p: Progress)
    ensures var rs, pre := Step(d, sections, p).progress.rounds, Inject(FieldsOf(p.heap, d), p.injected);
      var config := GlobalConfig(sections, d.name);
      && |rs| == |p.rounds| + 1 && rs[..|p.rounds|] == p.rounds
      && rs[|p.rounds|].dep == d && rs[|p.rounds|].available == p.injected
      && (rs[|p.rounds|].called.Some? <==> pre.err.None?)
      && (rs[|p.rounds|].called.Some? ==> rs[|p.rounds|].called.value == config)
      && (rs[|p.rounds|].reinjected.Some? <==> pre.err.None? && Product(d, sections) != d)
      && (rs[|p.rounds|].reinjected.Some? ==> rs[|p.rounds|].reinjected.value == Product(d, sections))
  {
    var pre := Inject(FieldsOf(p.heap, d), p.injected);
    assert (p.rounds + [Round(d, p.injected, None, None)])[..|p.rounds|] == p.rounds;
    if pre.err.None? {
      var config := GlobalConfig(sections, d.name);
      assert (p.rounds + [Round(d, p.injected, Some(config), None)])[..|p.rounds|] == p.rounds;
      assert (p.rounds + [Round(d, p.injected, Some(config), Some(Product(d, sections)))])[..|p.rounds|] == p.rounds;
    }
  }

  /**
   * An iteration fails with the error of the step that failed: the injection
   * into `d`, else `New`, else the injection into the instance `New` returned
   * (run.go:13-15, 17-20, 25-27).
   */
  lemma StepError(d: Instance, sections: Sections, p: Progress)
    ensures var pre, made := Inject(FieldsOf(p.heap, d), p.injected), d.factory(GlobalConfig(sections, d.name));
      var err := Step(d, sections, p).err;
      && (pre.err.Some? ==> err == pre.err)
      && (pre.err.None? && made.Failed? ==> err == Some(made.error))
      && (pre.err.None? && !made.Failed? && Product(d, sections) == d ==> err.None?)
      && (pre.err.None? && Product(d, sections) != d ==> err == Inject(FieldsOf(p.heap[d := pre.fields], Product(d, sections)), p.injected).err)
  {
  }

  /**
   * An iteration succeeds only when `New` succeeded, and then records
   * exactly what `New` returned under the definition's name.
   */
  lemma StepSuccess(d: Instance, sections: Sections, p: Progress)
    requires Step(d, sections, p).err.None?
    ensures Inject(FieldsOf(p.heap, d), p.injected).err.None?
    ensures !d.factory(GlobalConfig(sections, d.name)).Failed?
    ensures Step(d, sections, p).progress.injected == p.injected[d.name := Product(d, sections)]
  {
  }

  /**
   * What one iteration writes (run.go:13-29): `d`'s fields become those of
   * the first injection; when `New` returned another instance, that
   * instance's fields then become those of a second injection with the same
   * map; no other object changes.
   */
  lemma StepHeap(d: Instance, sections: Sections, p: Progress)
    ensures var pre := Inject(FieldsOf(p.heap, d), p.injected);
      var h1, o := p.heap[d := pre.fields], Product(d, sections);
      var h := Step(d, sections, p).progress.heap;
      && (pre.err.Some? || o == d ==> h == h1)
      && (pre.err.None? && o != d ==> h == h1[o := Inject(FieldsOf(h1, o), p.injected).fields])
  {
  }

  /**
   * After a successful iteration with a non-empty map, every tagged field of
   * the instance `New` returned (the definition itself or another one) holds
   * the dependency its tag names in that map (run.go:13-15, 22-29).
   */
  lemma StepWiresProduct(d: Instance, sections: Sections, p: Progress)
    requires |p.injected| > 0 && Step(d, sections, p).err.None?
    ensures var o, h := Product(d, sections), Step(d, sections, p).progress.heap;
      && o in h
      && forall j :: 0 <= j < |h[o]| && Tagged(h[o][j]) ==>
        && h[o][j].tag in p.injected
        && (h[o][j].slot.Plain? ==> h[o][j].slot == Plain(Some(p.injected[h[o][j].tag])))
        && (h[o][j].slot.Boxed? ==> h[o][j].slot == Boxed(Optional(Some(p.injected[h[o][j].tag]))))
  {
    StepHeap(d, sections, p);
    StepSuccess(d, sections, p);
    var pre := Inject(FieldsOf(p.heap, d), p.injected);
    var h1, o := p.heap[d := pre.fields], Product(d, sections);
    var h := Step(d, sections, p).progress.heap;
    var src := if o == d then FieldsOf(p.heap, d) else FieldsOf(h1, o);
    var r := Inject(src, p.injected);
    if o != d {
      StepError(d, sections, p);
    }
    assert o in h && h[o] == r.fields;
    InjectSucceedsIff(src, p.injected);
    forall j | 0 <= j < |r.fields| && Tagged(r.fields[j])
      ensures && r.fields[j].tag in p.injected
        && (r.fields[j].slot.Plain? ==> r.fields[j].slot == Plain(Some(p.injected[r.fields[j].tag])))
        && (r.fields[j].slot.Boxed? ==> r.fields[j].slot == Boxed(Optional(Some(p.injected[r.fields[j].tag]))))
    {
      assert r.fields[j] == Wired(src[j], p.injected);
      assert Fault(src[j], p.injected).None?;
    }
  }

  /** A loop that got past iteration `i - 1` got there by a successful iteration. */
  lemma PrefixSteps(deps: seq<Instance>, sections: Sections, heap: Heap, i: nat)
    requires 0 < i <= |deps|
    requires Prefix(deps, sections, heap, i - 1).err.None?
    ensures Prefix(deps, sections, heap, i) == Step(deps[i - 1], sections, Prefix(deps, sections, heap, i - 1).progress)
  {
  }

  /**
   * The rounds recorded before iteration `i` follow the registry: round `k`
   * is about `deps[k]` and is faithful to it; `New` was called in every round
   * but a failed last one; and without a failure there is one round per
   * definition and `injected` binds each name to what `New` returned for its
   * last definition (run.go:6-31).
   */
  lemma {:induction false} RoundsFollowRegistry(deps: seq<Instance>, sections: Sections, heap: Heap, i: nat)
    requires i <= |deps|
    ensures var out := Prefix(deps, sections, heap, i); var rs := out.progress.rounds;
      && |rs| <= i
      && (forall k :: 0 <= k < |rs| ==> Faithful(rs[k], deps, sections, k))
      && (forall k :: 0 <= k < |rs| && (k + 1 < |rs| || out.err.None?) ==> rs[k].called.Some?)
      && (out.err.None? ==> |rs| == i && out.progress.injected == Products(deps[..i], sections))
      && (out.err.Some? ==> 0 < |rs|)
    decreases i
  {
    if i > 0 {
      RoundsFollowRegistry(deps, sections, heap, i - 1);
      var before := Prefix(deps, sections, heap, i - 1);
      if before.err.Some? {
        StaysFailed(deps, sections, heap, i);
      } else {
        PrefixSteps(deps, sections, heap, i);
        NextRoundFollows(deps, sections, i - 1, before.progress);
      }
    }
  }

  /**
   * The iteration on `deps[k]`, after `k` successful ones, appends a round
   * faithful to `deps[k]` and, when it succeeds, extends the map with the
   * product of `deps[k]`.
   */
  lemma NextRoundFollows(deps: seq<Instance>, sections: Sections, k: nat, p: Progress)
    requires k < |deps| && |p.rounds| == k && p.injected == Products(deps[..k], sections)
    requires forall j :: 0 <= j < k ==> Faithful(p.rounds[j], deps, sections, j) && p.rounds[j].called.Some?
    ensures var out := Step(deps[k], sections, p); var rs := out.progress.rounds;
      && |rs| == k + 1
      && (forall j :: 0 <= j < |rs| ==> Faithful(rs[j], deps, sections, j))
      && (forall j :: 0 <= j < |rs| && (j + 1 < |rs| || out.err.None?) ==> rs[j].called.Some?)
      && (out.err.None? ==> out.progress.injected == Products(deps[..k + 1], sections))
  {
    var d := deps[k];
    StepRound(d, sections, p);
    var after := Step(d, sections, p);
    var rs := after.progress.rounds;
    forall j | 0 <= j < |rs|
      ensures Faithful(rs[j], deps, sections, j)
      ensures (j + 1 < |rs| || after.err.None?) ==> rs[j].called.Some?
    {
      if j < k {
        assert rs[j] == rs[..k][j];
      } else if after.err.None? {
        StepSuccess(d, sections, p);
      }
    }
    if after.err.None? {
      StepSuccess(d, sections, p);
      ProductsGrow(deps, sections, k + 1);
    }
  }

  lemma ProductsGrow(deps: seq<Instance>, sections: Sections, i: nat)
    requires 0 < i <= |deps|
    ensures Products(deps[..i], sections) == Products(deps[..i - 1], sections)[deps[i - 1].name := Product(deps[i - 1], sections)]
  {
    assert deps[..i][..i - 1] == deps[..i - 1];
  }

  /** The names bound by Products are the names of the definitions. */
  lemma {:induction false} ProductsNames(deps: seq<Instance>, sections: Sections)
    ensures Products(deps, sections).Keys == set j | 0 <= j < |deps| :: deps[j].name
  {
    if deps != [] {
      var init := deps[..|deps| - 1];
      ProductsNames(init, sections);
      assert forall j :: 0 <= j < |init| ==> init[j] == deps[j];
    }
  }

  /**
   * Products follows the registry's name lookup: the same names, each bound
   * to what `New` returned for the definition globalGet would return.
   */
  lemma {:induction false} ProductsFollowByName(deps: seq<Instance>, sections: Sections, name: string)
    ensures name in Products(deps, sections) <==> name in ByName(deps)
    ensures name in ByName(deps) ==> Products(deps, sections)[name] == Product(ByName(deps)[name], sections)
  {
    if deps != [] {
      ProductsFollowByName(deps[..|deps| - 1], sections, name);
    }
  }

  /**
   * Each definition is injected, before its `New`, with a map whose names are
   * exactly those of the definitions registered before it.
   */
  lemma PreInjectionSeesEarlierNames(deps: seq<Instance>, sections: Sections, heap: Heap, i: nat, k: nat)
    requires i <= |deps|
    requires k < |Prefix(deps, sections, heap, i).progress.rounds|
    ensures k < i
    ensures var r := Prefix(deps, sections, heap, i).progress.rounds[k];
      r.dep == deps[k] && r.available.Keys == set j | 0 <= j < k :: deps[j].name
  {
    RoundsFollowRegistry(deps, sections, heap, i);
    ProductsNames(deps[..k], sections);
    assert forall j :: 0 <= j < k ==> deps[..k][j] == deps[j];
  }

  /**
   * When iteration `k` fails, the loop ends with that iteration's error and
   * the state it left: `k + 1` rounds, so no later definition is injected or
   * constructed, and `New` of `deps[k]` called exactly when the injection
   * into it had succeeded (run.go:13-15, 17-20, 25-27). Construct then
   * returns no runnable and this error.
   */
  lemma FailureStopsConstruction(deps: seq<Instance>, sections: Sections, heap: Heap, k: nat)
    requires k < |deps|
    requires Prefix(deps, sections, heap, k).err.None?
    requires Step(deps[k], sections, Prefix(deps, sections, heap, k).progress).err.Some?
    ensures var out := Prefix(deps, sections, heap, |deps|); var p := Prefix(deps, sections, heap, k).progress;
      && out.err == Step(deps[k], sections, p).err
      && |out.progress.rounds| == k + 1
      && (out.progress.rounds[k].called.None? <==> Inject(FieldsOf(p.heap, deps[k]), p.injected).err.Some?)
  {
    var p := Prefix(deps, sections, heap, k).progress;
    FailedIterationIsLast(deps, sections, heap, k);
    RoundCount(deps, sections, heap, k);
    StepRound(deps[k], sections, p);
  }

  /** A failed iteration is the last: the loop ends in the state it left. */
  lemma FailedIterationIsLast(deps: seq<Instance>, sections: Sections, heap: Heap, k: nat)
    requires k < |deps|
    requires Prefix(deps, sections, heap, k).err.None?
    requires Step(deps[k], sections, Prefix(deps, sections, heap, k).progress).err.Some?
    ensures Prefix(deps, sections, heap, |deps|) == Step(deps[k], sections, Prefix(deps, sections, heap, k).progress)
  {
    PrefixSteps(deps, sections, heap, k + 1);
    FailureIsFinal(deps, sections, heap, k + 1, |deps|);
  }

  /** Without a failure, the loop has recorded one round per definition so far. */
  lemma {:induction false} RoundCount(deps: seq<Instance>, sections: Sections, heap: Heap, i: nat)
    requires i <= |deps|
    requires Prefix(deps, sections, heap, i).err.None?
    ensures |Prefix(deps, sections, heap, i).progress.rounds| == i
    decreases i
  {
    if i > 0 {
      var before := Prefix(deps, sections, heap, i - 1);
      if before.err.Some? {
        StaysFailed(deps, sections, heap, i);
      } else {
        RoundCount(deps, sections, heap, i - 1);
        PrefixSteps(deps, sections, heap, i);
        StepRound(deps[i - 1], sections, before.progress);
      }
    }
  }

  /** Injection keeps every field's tag and type, and leaves untagged fields alone. */
  lemma InjectKeepsLayout(fs: seq<Field>, deps: map<string, Instance>)
    ensures SameLayout(fs, Inject(fs, deps).fields)
  {
    if |deps| > 0 {
      InjectFromInOrder(fs, deps, 0);
    }
  }

  /** The loop writes only tagged fields, and never changes a field's tag or type. */
  lemma {:induction false} LayoutIsPreserved(deps: seq<Instance>, sections: Sections, heap: Heap, i: nat)
    requires i <= |deps|
    ensures KeepsLayout(heap, Prefix(deps, sections, heap, i).progress.heap)
    decreases i
  {
    if i > 0 {
      LayoutIsPreserved(deps, sections, heap, i - 1);
      var before := Prefix(deps, sections, heap, i - 1);
      if before.err.None? {
        StepKeepsLayout(deps[i - 1], sections, before.progress);
        var h0, h1, h2 := heap, before.progress.heap, Step(deps[i - 1], sections, before.progress).progress.heap;
        forall o | o in h0
          ensures o in h2 && SameLayout(h0[o], h2[o])
        {
          SameLayoutChains(h0[o], h1[o], h2[o]);
        }
      }
    }
  }

  /** One iteration keeps the layout of every object. */
  lemma StepKeepsLayout(d: Instance, sections: Sections, p: Progress)
    ensures KeepsLayout(p.heap, Step(d, sections, p).progress.heap)
  {
    var pre := Inject(FieldsOf(p.heap, d), p.injected);
    InjectKeepsLayout(FieldsOf(p.heap, d), p.injected);
    var p1 := p.(heap := p.heap[d := pre.fields]);
    assert KeepsLayout(p.heap, p1.heap);
    if pre.err.None? {
      InstantiateKeepsLayout(d, sections, p1);
      var h2 := Instantiate(d, sections, p1).progress.heap;
      forall o | o in p.heap
        ensures o in h2 && SameLayout(p.heap[o], h2[o])
      {
        SameLayoutChains(p.heap[o], p1.heap[o], h2[o]);
      }
    }
  }

  /** Constructing `d` keeps the layout of every object. */
  lemma InstantiateKeepsLayout(d: Instance, sections: Sections, p: Progress)
    ensures KeepsLayout(p.heap, Instantiate(d, sections, p).progress.heap)
  {
    if Product(d, sections) != d {
      InjectKeepsLayout(FieldsOf(p.heap, Product(d, sections)), p.injected);
    }
  }

  lemma SameLayoutChains(a: seq<Field>, b: seq<Field>, c: seq<Field>)
    requires SameLayout(a, b) && SameLayout(b, c)
    ensures SameLayout(a, c)
  {
  }

  /**
   * A run that gets through every definition has called `New` once per
   * definition, in order, and injects the entry point with the whole map,
   * each name bound to what `New` returned for its last definition; it
   * returns that injection's error (run.go:33).
   */
  lemma SuccessfulRunInjectsRunnable(deps: seq<Instance>, sections: Sections, heap: Heap, zero: seq<Field>)
    requires Prefix(deps, sections, heap, |deps|).err.None?
    ensures var out := Construct(deps, sections, heap, zero); var last := Inject(zero, Products(deps, sections));
      && out.runnable == Some(last.fields) && out.err == last.err
      && |out.progress.rounds| == |deps|
      && forall k :: 0 <= k < |deps| ==> out.progress.rounds[k].dep == deps[k] && out.progress.rounds[k].called.Some?
  {
    RoundsFollowRegistry(deps, sections, heap, |deps|);
    assert deps[..|deps|] == deps;
  }

  /**
   * An entry point without fields (compose.go's `composer`, di.go's `Idle`)
   * cannot make the final injection fail: run returns exactly the loop's
   * error, and on success the entry point unchanged.
   */
  lemma EmptyRunnableNeverFails(deps: seq<Instance>, sections: Sections, heap: Heap)
    ensures var out := Construct(deps, sections, heap, []);
      && out.err == Prefix(deps, sections, heap, |deps|).err
      && (out.err.None? ==> out.runnable == Some([]))
  {
  }
}

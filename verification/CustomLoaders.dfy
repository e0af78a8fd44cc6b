/** The registry of custom loaders and the swap it goes through when the configuration
    is read again. */
module CustomLoaders {
  import opened Common

  datatype Code = OK | CUSTOM_LOADER_EXISTS | INTERNAL_ERROR | CREATION_FAILED(reason: nat) | PARSING_FAILED

  /** Instances of custom loaders are told apart by a number. */
  type Loader = nat

  /** What creating a loader from its library leads to. */
  datatype Creation = Created(loader: Loader) | Failed(reason: nat)

  /** One entry of the list in the configuration file. "creation" is what creating the
      loader would lead to, if it is tried. */
  datatype Entry = Entry(name: string, parsed: bool, creation: Creation)

  datatype DeInit = DeInit(name: string, loader: Loader)

  function Names(entries: seq<Entry>): set<string> {
    set i | 0 <= i < |entries| :: entries[i].name
  }

  /** The first loader created for a name. */
  function FirstCreated(entries: seq<Entry>, name: string): Option<Loader> {
    if entries == [] then None
    else
      var before := FirstCreated(entries[..|entries| - 1], name);
      var e := entries[|entries| - 1];
      if before.Some? then before
      else if e.name == name && e.creation.Created? then Some(e.creation.loader)
      else None
  }

  /** The loader that a name is bound to after the swap: the old one if there is one and
      the name is still listed, otherwise the first one created for the name. */
  function Binding(before: map<string, Loader>, entries: seq<Entry>, name: string): Option<Loader> {
    if name !in Names(entries) then None
    else if name in before then Some(before[name])
    else FirstCreated(entries, name)
  }

  /** Whether entry e, met after "earlier", only moves a loader that exists already. */
  predicate Moves(before: map<string, Loader>, earlier: seq<Entry>, e: Entry) {
    e.name in before && e.name !in Names(earlier)
  }

  /** The error that is reported: the first one, parsing before creation. */
  function FirstError(before: map<string, Loader>, entries: seq<Entry>): Code {
    if entries == [] then OK
    else
      var earlier := entries[..|entries| - 1];
      var e := entries[|entries| - 1];
      var error := FirstError(before, earlier);
      if error != OK then error
      else if !e.parsed then PARSING_FAILED
      else if !Moves(before, earlier, e) && e.creation.Failed? then CREATION_FAILED(e.creation.reason)
      else OK
  }

  /** Entry i cannot be parsed, or it has to create a loader and cannot. An entry creates
      one unless its name was registered before and is listed for the first time. */
  ghost predicate Offends(before: map<string, Loader>, entries: seq<Entry>, i: nat)
    requires i < |entries|
  {
    || !entries[i].parsed
    || (&& entries[i].creation.Failed?
        && (entries[i].name !in before || exists j :: 0 <= j < i && entries[j].name == entries[i].name))
  }

  lemma OffendsFront(before: map<string, Loader>, entries: seq<Entry>, i: nat)
    requires i < |entries| - 1
    ensures Offends(before, entries[..|entries| - 1], i) <==> Offends(before, entries, i)
  {
    var front := entries[..|entries| - 1];
    assert forall j :: 0 <= j <= i ==> front[j] == entries[j];
  }

  /** The error of the first entry that offends is reported; none if there is none. */
  lemma {:induction false} FirstErrorIs(before: map<string, Loader>, entries: seq<Entry>)
    ensures FirstError(before, entries) == OK <==> forall i :: 0 <= i < |entries| ==> !Offends(before, entries, i)
    ensures forall i :: 0 <= i < |entries| && Offends(before, entries, i)
                        && (forall j :: 0 <= j < i ==> !Offends(before, entries, j)) ==>
              FirstError(before, entries)
              == if !entries[i].parsed then PARSING_FAILED else CREATION_FAILED(entries[i].creation.reason)
  {
    if entries != [] {
      var n := |entries| - 1;
      var front := entries[..n];
      FirstErrorIs(before, front);
      forall i: nat | i < n ensures Offends(before, front, i) <==> Offends(before, entries, i) && front[i] == entries[i] {
        OffendsFront(before, entries, i);
      }
      assert entries[n].name in Names(front) <==> exists j :: 0 <= j < n && entries[j].name == entries[n].name by {
        assert forall j :: 0 <= j < n ==> front[j] == entries[j];
      }
      assert Offends(before, entries, n)
             <==> !entries[n].parsed || (!Moves(before, front, entries[n]) && entries[n].creation.Failed?);
    }
  }

  /** The loaders that were created and initialised, in order. */
  function Initialised(before: map<string, Loader>, entries: seq<Entry>): seq<Loader> {
    if entries == [] then []
    else
      var earlier := entries[..|entries| - 1];
      var e := entries[|entries| - 1];
      if !Moves(before, earlier, e) && e.creation.Created?
      then Initialised(before, earlier) + [e.creation.loader]
      else Initialised(before, earlier)
  }

  /** Every loader of "gone" is de-initialised exactly once, and no other. */
  ghost predicate EachOnce(deInits: seq<DeInit>, gone: map<string, Loader>) {
    && (forall i :: 0 <= i < |deInits| ==> deInits[i].name in gone && deInits[i].loader == gone[deInits[i].name])
    && (forall i, j :: 0 <= i < j < |deInits| ==> deInits[i].name != deInits[j].name)
    && (forall name :: name in gone ==> DeInit(name, gone[name]) in deInits)
  }

  lemma NamesStep(entries: seq<Entry>, i: nat)
    requires i < |entries|
    ensures Names(entries[..i + 1]) == Names(entries[..i]) + {entries[i].name}
    ensures entries[..i + 1][..i] == entries[..i]
  {
    var a, b := entries[..i], entries[..i + 1];
    assert forall k :: 0 <= k < i ==> a[k] == b[k] == entries[k];
    forall n ensures n in Names(b) <==> n in Names(a) || n == entries[i].name {
      if n in Names(a) {
        var k :| 0 <= k < |a| && a[k].name == n;
        assert b[k].name == n;
      }
      if n == entries[i].name {
        assert b[i].name == n;
      }
    }
  }

  lemma {:induction false} CreatedIsListed(entries: seq<Entry>, name: string)
    requires name !in Names(entries)
    ensures FirstCreated(entries, name) == None
  {
    if entries != [] {
      var n := |entries| - 1;
      NamesStep(entries, n);
      assert entries[..n + 1] == entries;
      CreatedIsListed(entries[..n], name);
    }
  }

  lemma BindingStep(before: map<string, Loader>, entries: seq<Entry>, i: nat, name: string)
    requires i < |entries|
    ensures var e := entries[i];
            var b := Binding(before, entries[..i], name);
            Binding(before, entries[..i + 1], name)
            == if name != e.name || b.Some? then b
               else if name in before then Some(before[name])
               else if e.creation.Created? then Some(e.creation.loader)
               else None
  {
    NamesStep(entries, i);
    if name !in Names(entries[..i]) {
      CreatedIsListed(entries[..i], name);
    }
  }

  /** What the two maps hold when the entries in "done" have been read. */
  ghost predicate Swapping(before: map<string, Loader>, done: seq<Entry>, loaders: map<string, Loader>, newLoaders: map<string, Loader>) {
    && loaders == before - Names(done)
    && (forall name :: name in newLoaders <==> Binding(before, done, name).Some?)
    && (forall name :: name in newLoaders ==> newLoaders[name] == Binding(before, done, name).value)
  }

  /** The new map after an entry has been handled, given both maps before. */
  function AfterEntry(e: Entry, loaders: map<string, Loader>, newLoaders: map<string, Loader>): map<string, Loader> {
    if e.name in newLoaders then newLoaders
    else if e.name in loaders then newLoaders[e.name := loaders[e.name]]
    else if e.creation.Created? then newLoaders[e.name := e.creation.loader]
    else newLoaders
  }

  lemma SwapStep(before: map<string, Loader>, entries: seq<Entry>, i: nat, loaders: map<string, Loader>, newLoaders: map<string, Loader>)
    requires i < |entries| && Swapping(before, entries[..i], loaders, newLoaders)
    ensures Swapping(before, entries[..i + 1], loaders - {entries[i].name}, AfterEntry(entries[i], loaders, newLoaders))
    ensures entries[i].name in loaders <==> Moves(before, entries[..i], entries[i])
  {
    NamesStep(entries, i);
    var e := entries[i];
    var after := AfterEntry(e, loaders, newLoaders);
    forall name
      ensures name in after <==> Binding(before, entries[..i + 1], name).Some?
      ensures name in after ==> after[name] == Binding(before, entries[..i + 1], name).value
    {
      BindingStep(before, entries, i, name);
      if name == e.name && name in before && name in Names(entries[..i]) {
        assert Binding(before, entries[..i], name) == Some(before[name]);
      }
    }
    assert loaders - {e.name} == before - Names(entries[..i + 1]);
  }

  // ---- loaders that are created for nothing ----

  /** Some name is bound to the loader after the swap. */
  ghost predicate Registered(before: map<string, Loader>, entries: seq<Entry>, loader: Loader) {
    exists name :: Binding(before, entries, name) == Some(loader)
  }

  /** Entry j creates a loader. */
  predicate Creates(before: map<string, Loader>, entries: seq<Entry>, j: nat)
    requires j < |entries|
  {
    entries[j].creation.Created? && !Moves(before, entries[..j], entries[j])
  }

  /** Whatever entry j creates is kept: its name was free. */
  predicate Keeps(before: map<string, Loader>, entries: seq<Entry>, j: nat)
    requires j < |entries|
  {
    entries[j].name !in before && FirstCreated(entries[..j], entries[j].name).None?
  }

  /** Created instances differ from each other and from the old ones. */
  ghost predicate NewInstances(before: map<string, Loader>, entries: seq<Entry>) {
    && (forall i, j :: 0 <= i < j < |entries| && entries[i].creation.Created? && entries[j].creation.Created? ==>
          entries[i].creation.loader != entries[j].creation.loader)
    && (forall i, name :: 0 <= i < |entries| && entries[i].creation.Created? && name in before ==>
          entries[i].creation.loader != before[name])
  }

  lemma {:induction false} InitialisedMembers(before: map<string, Loader>, entries: seq<Entry>, loader: Loader)
    ensures loader in Initialised(before, entries)
            <==> exists j :: 0 <= j < |entries| && Creates(before, entries, j) && entries[j].creation.loader == loader
  {
    if entries != [] {
      var n := |entries| - 1;
      var front := entries[..n];
      InitialisedMembers(before, front, loader);
      forall j | 0 <= j < n ensures Creates(before, front, j) <==> Creates(before, entries, j) {
        assert front[..j] == entries[..j];
      }
      if j :| 0 <= j < |entries| && Creates(before, entries, j) && entries[j].creation.loader == loader {
        assert j < n ==> Creates(before, front, j) && front[j].creation.loader == loader;
      }
      if j :| 0 <= j < n && Creates(before, front, j) && front[j].creation.loader == loader {
        assert Creates(before, entries, j) && entries[j].creation.loader == loader;
      }
    }
  }

  /** The first loader created for a name comes from an entry before which there was none. */
  lemma {:induction false} FirstCreatedAt(entries: seq<Entry>, name: string) returns (k: nat)
    requires FirstCreated(entries, name).Some?
    ensures k < |entries| && entries[k].name == name && entries[k].creation == Created(FirstCreated(entries, name).value)
    ensures FirstCreated(entries[..k], name).None?
  {
    var n := |entries| - 1;
    if FirstCreated(entries[..n], name).Some? {
      k := FirstCreatedAt(entries[..n], name);
      assert entries[..n][..k] == entries[..k];
    } else {
      k := n;
    }
  }

  lemma {:induction false} FirstCreatedStays(entries: seq<Entry>, name: string, k: nat)
    requires k <= |entries| && FirstCreated(entries[..k], name).Some?
    ensures FirstCreated(entries, name) == FirstCreated(entries[..k], name)
    decreases |entries|
  {
    if k == |entries| {
      assert entries[..k] == entries;
    } else {
      assert entries[..|entries| - 1][..k] == entries[..k];
      FirstCreatedStays(entries[..|entries| - 1], name, k);
    }
  }

  /** The loader that entry j creates is registered afterwards exactly if its name was free. */
  lemma KeptIfFree(before: map<string, Loader>, entries: seq<Entry>, j: nat)
    requires j < |entries| && Creates(before, entries, j) && NewInstances(before, entries)
    ensures Registered(before, entries, entries[j].creation.loader) <==> Keeps(before, entries, j)
  {
    var e := entries[j];
    if Keeps(before, entries, j) {
      assert entries[..j + 1][..j] == entries[..j];
      FirstCreatedStays(entries, e.name, j + 1);
      assert Binding(before, entries, e.name) == Some(e.creation.loader);
    }
    if name :| Binding(before, entries, name) == Some(e.creation.loader) {
      var k := FirstCreatedAt(entries, name);
      assert k == j;
    }
  }

  /** No loader is lost - every loader initialised by the call is registered afterwards -
      exactly if every entry that creates a loader has a name that is neither registered
      before the call nor was given a loader by an earlier entry. */
  lemma NothingLost(before: map<string, Loader>, entries: seq<Entry>)
    requires NewInstances(before, entries)
    ensures (forall loader :: loader in Initialised(before, entries) ==> Registered(before, entries, loader))
            <==> (forall j :: 0 <= j < |entries| && Creates(before, entries, j) ==> Keeps(before, entries, j))
  {
    forall j | 0 <= j < |entries| && Creates(before, entries, j)
      ensures entries[j].creation.loader in Initialised(before, entries)
      ensures Registered(before, entries, entries[j].creation.loader) <==> Keeps(before, entries, j)
    {
      InitialisedMembers(before, entries, entries[j].creation.loader);
      KeptIfFree(before, entries, j);
    }
    forall loader | loader in Initialised(before, entries)
      ensures exists j :: 0 <= j < |entries| && Creates(before, entries, j) && entries[j].creation.loader == loader
    {
      InitialisedMembers(before, entries, loader);
    }
  }

  /** Loader a is registered and listed twice: the second entry creates an instance that
      is initialised, but neither registered nor, since a is listed, de-initialised. */
  lemma RepeatedLoaderIsLost(a: string, kept: Loader, first: Entry, second: Entry, created: Loader)
    requires first.name == a && second == Entry(a, true, Created(created)) && created != kept
    ensures var before, entries := map[a := kept], [first, second];
            && Initialised(before, entries) == [created] && !Registered(before, entries, created)
            && Binding(before, entries, a) == Some(kept) && before - Names(entries) == map[]
  {
    var before, entries := map[a := kept], [first, second];
    var one := entries[..1];
    assert one[0] == first && one[..0] == [];
    assert Moves(before, one[..0], first);
    assert Initialised(before, one) == Initialised(before, one[..0]) == [];
    assert entries[0].name == a && a in Names(entries);
    assert one[0].name == a && a in Names(one);
    assert !Moves(before, one, second);
    forall name ensures Binding(before, entries, name) != Some(created) {
      if name != a {
        assert name !in Names(entries);
      }
    }
  }

  class CustomLoaders {
    var loaders: map<string, Loader>
    var newLoaders: map<string, Loader>
    ghost var inits: seq<Loader>
    ghost var deInits: seq<DeInit>

    constructor ()
      ensures loaders == map[] && newLoaders == map[] && inits == [] && deInits == []
    {
      loaders, newLoaders, inits, deInits := map[], map[], [], [];
    }

    method Add(name: string, loader: Loader) returns (code: Code)
      modifies this`newLoaders
      ensures code == if name in old(newLoaders) then CUSTOM_LOADER_EXISTS else OK
      ensures newLoaders == if name in old(newLoaders) then old(newLoaders) else old(newLoaders)[name := loader]
    {
      if name in newLoaders {
        return CUSTOM_LOADER_EXISTS;
      }
      newLoaders := newLoaders[name := loader];
      return OK;
    }

    method Find(name: string) returns (loader: Option<Loader>)
      ensures loader.Some? <==> name in loaders
      ensures loader.Some? ==> loader.value == loaders[name]
    {
      if name in loaders {
        return Some(loaders[name]);
      }
      return None;
    }

    method Move(name: string) returns (code: Code)
      modifies this`loaders, this`newLoaders
      ensures code == if name in old(loaders) then OK else INTERNAL_ERROR
      ensures name !in old(loaders) ==> loaders == old(loaders) && newLoaders == old(newLoaders)
      ensures name in old(loaders) ==>
                && loaders == old(loaders) - {name}
                && newLoaders == if name in old(newLoaders) then old(newLoaders) else old(newLoaders)[name := old(loaders)[name]]
    {
      if name !in loaders {
        return INTERNAL_ERROR;
      }
      if name !in newLoaders {
        newLoaders := newLoaders[name := loaders[name]];
      }
      loaders := loaders - {name};
      return OK;
    }

    method Finalize()
      modifies this
      ensures loaders == old(newLoaders) && newLoaders == map[] && inits == old(inits)
      ensures exists d :: deInits == old(deInits) + d && EachOnce(d, old(loaders))
    {
      ghost var gone := loaders;
      ghost var d: seq<DeInit> := [];
      var remaining := loaders.Keys;
      while remaining != {}
        invariant remaining <= gone.Keys && loaders == gone && newLoaders == old(newLoaders) && inits == old(inits)
        invariant deInits == old(deInits) + d
        invariant forall i :: 0 <= i < |d| ==> d[i].name in gone && d[i].name !in remaining && d[i].loader == gone[d[i].name]
        invariant forall i, j :: 0 <= i < j < |d| ==> d[i].name != d[j].name
        invariant forall name :: name in gone && name !in remaining ==> DeInit(name, gone[name]) in d
      {
        var name :| name in remaining;
        deInits := deInits + [DeInit(name, loaders[name])];
        d := d + [DeInit(name, gone[name])];
        remaining := remaining - {name};
      }
      assert EachOnce(d, gone);
      loaders := map[];
      loaders := newLoaders;
      newLoaders := map[];
    }

    /** Creates the loader of an entry unless one is registered under its name, which is
        then moved. A name that was moved before is not found any more, so a repeated
        entry creates a loader that is then dropped; the result of Add is not looked at. */
    method CreateCustomLoader(e: Entry) returns (code: Code)
      modifies this
      ensures loaders == old(loaders) - {e.name} && newLoaders == AfterEntry(e, old(loaders), old(newLoaders))
      ensures deInits == old(deInits)
      ensures e.name in old(loaders) || e.creation.Created? ==> code == OK
      ensures e.name !in old(loaders) && e.creation.Failed? ==> code == CREATION_FAILED(e.creation.reason)
      ensures inits == if e.name !in old(loaders) && e.creation.Created? then old(inits) + [e.creation.loader] else old(inits)
    {
      var found := Find(e.name);
      if found.None? {
        assert loaders - {e.name} == loaders;
        if e.creation.Failed? {
          return CREATION_FAILED(e.creation.reason);
        }
        inits := inits + [e.creation.loader];
        var _ := Add(e.name, e.creation.loader);
      } else {
        var _ := Move(e.name);
      }
      return OK;
    }

    /** Without a list nothing happens. For every list of entries, with repetitions or
        not: afterwards exactly the names with a binding are registered, each with its
        binding, and each old loader that is not listed any more has been de-initialised
        exactly once and no other. */
    method LoadCustomLoadersConfig(list: Option<seq<Entry>>) returns (code: Code)
      requires newLoaders == map[]
      modifies this
      ensures newLoaders == map[]
      ensures list.None? ==> code == OK && loaders == old(loaders) && inits == old(inits) && deInits == old(deInits)
      ensures list.Some? ==>
                && (forall name :: name in loaders <==> Binding(old(loaders), list.value, name).Some?)
                && (forall name :: name in loaders ==> loaders[name] == Binding(old(loaders), list.value, name).value)
                && (exists d :: deInits == old(deInits) + d && EachOnce(d, old(loaders) - Names(list.value)))
                && inits == old(inits) + Initialised(old(loaders), list.value)
                && code == FirstError(old(loaders), list.value)
                && (code == OK <==> forall i :: 0 <= i < |list.value| ==> !Offends(old(loaders), list.value, i))
    {
      if list.None? {
        return OK;
      }
      var entries := list.value;
      code := OK;
      ghost var before := loaders;
      var i := 0;
      assert before - Names([]) == before;
      while i < |entries|
        invariant 0 <= i <= |entries|
        invariant Swapping(before, entries[..i], loaders, newLoaders) && deInits == old(deInits)
        invariant inits == old(inits) + Initialised(before, entries[..i])
        invariant code == FirstError(before, entries[..i])
      {
        SwapStep(before, entries, i, loaders, newLoaders);
        NamesStep(entries, i);
        var e := entries[i];
        if !e.parsed && code == OK {
          code := PARSING_FAILED;
        }
        var status := CreateCustomLoader(e);
        if status != OK && code == OK {
          code := status;
        }
        i := i + 1;
      }
      assert entries[..i] == entries;
      FirstErrorIs(before, entries);
      Finalize();
    }
  }
}

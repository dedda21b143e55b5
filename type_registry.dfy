/** The precision registry of the defines block: an insertion-ordered mapping from type name to
    type, filled layer by layer so that the first layer to mention a name decides its type. */
module TypeRegistry {
  import opened HlsModel

  /** The names of a sequence of entries, position by position. */
  function Names(entries: seq<TypeEntry>): (r: seq<string>)
    ensures |r| == |entries|
    ensures forall i :: 0 <= i < |entries| ==> r[i] == entries[i].name
  {
    if entries == [] then [] else Names(entries[..|entries| - 1]) + [entries[|entries| - 1].name]
  }

  /** Every precision entry of every layer, in graph order. */
  function AllTypes(layers: seq<Layer>): seq<TypeEntry>
  {
    if layers == [] then [] else AllTypes(layers[..|layers| - 1]) + layers[|layers| - 1].precision
  }

  /** One `if type_name not in all_precision: all_precision[type_name] = type_var` step. */
  function Register(reg: seq<TypeEntry>, t: TypeEntry): seq<TypeEntry>
  {
    if t.name in Names(reg) then reg else reg + [t]
  }

  /** The registry after registering `items` in order into an empty one. */
  function Registry(items: seq<TypeEntry>): seq<TypeEntry>
  {
    if items == [] then [] else Register(Registry(items[..|items| - 1]), items[|items| - 1])
  }

  /** The position of the first entry of `items` named `n`. */
  function FirstIndex(items: seq<TypeEntry>, n: string): (k: nat)
    requires n in Names(items)
    ensures k < |items| && items[k].name == n
    ensures forall j :: 0 <= j < k ==> items[j].name != n
  {
    var init := items[..|items| - 1];
    if n in Names(init) then FirstIndex(init, n) else |items| - 1
  }

  /** The concatenated `definition_cpp()` texts, in registry order. */
  function RenderAll(reg: seq<TypeEntry>): string
  {
    if reg == [] then "" else RenderAll(reg[..|reg| - 1]) + reg[|reg| - 1].definition
  }

  predicate NoDuplicateNames(reg: seq<TypeEntry>)
  {
    forall i, j :: 0 <= i < j < |reg| ==> reg[i].name != reg[j].name
  }

  /** A name is registered exactly when some entry carries it. */
  lemma {:induction false} RegistryNames(items: seq<TypeEntry>)
    ensures forall n :: n in Names(Registry(items)) <==> n in Names(items)
  {
    if items != [] {
      var init := items[..|items| - 1];
      RegistryNames(init);
      assert items == init + [items[|items| - 1]];
      assert Names(items) == Names(init) + [items[|items| - 1].name];
    }
  }

  /** The registry holds each type name at most once. */
  lemma {:induction false} RegistryNoDuplicates(items: seq<TypeEntry>)
    ensures NoDuplicateNames(Registry(items))
  {
    if items != [] {
      RegistryNoDuplicates(items[..|items| - 1]);
    }
  }

  /** Each registered entry is the first entry of `items` that carries its name. */
  lemma {:induction false} RegistryFirstSeen(items: seq<TypeEntry>)
    ensures forall i :: 0 <= i < |Registry(items)| ==>
      Registry(items)[i].name in Names(items) &&
      Registry(items)[i] == items[FirstIndex(items, Registry(items)[i].name)]
  {
    if items != [] {
      var init := items[..|items| - 1];
      var t := items[|items| - 1];
      RegistryFirstSeen(init);
      RegistryNames(init);
      var prev := Registry(init);
      assert Names(items) == Names(init) + [t.name];
      forall i | 0 <= i < |Registry(items)|
        ensures Registry(items)[i].name in Names(items)
        ensures Registry(items)[i] == items[FirstIndex(items, Registry(items)[i].name)]
      {
        if i < |prev| {
          assert Registry(items)[i] == prev[i];
          assert prev[i].name in Names(init);
        }
      }
    }
  }

  /** Registry order is first-occurrence order. */
  lemma {:induction false} RegistryOrder(items: seq<TypeEntry>)
    ensures forall i, j :: 0 <= i < j < |Registry(items)| ==>
      Registry(items)[i].name in Names(items) && Registry(items)[j].name in Names(items) &&
      FirstIndex(items, Registry(items)[i].name) < FirstIndex(items, Registry(items)[j].name)
  {
    if items != [] {
      var init := items[..|items| - 1];
      var t := items[|items| - 1];
      RegistryOrder(init);
      RegistryNames(init);
      RegistryFirstSeen(init);
      var prev := Registry(init);
      assert Names(items) == Names(init) + [t.name];
      var reg := Registry(items);
      assert reg == prev || reg == prev + [t];
      forall i, j | 0 <= i < j < |reg|
        ensures reg[i].name in Names(items) && reg[j].name in Names(items) &&
          FirstIndex(items, reg[i].name) < FirstIndex(items, reg[j].name)
      {
        assert Registry(items)[i] == prev[i] && prev[i].name in Names(init);
        assert FirstIndex(items, prev[i].name) == FirstIndex(init, prev[i].name);
        if j < |prev| {
          assert Registry(items)[j] == prev[j] && prev[j].name in Names(init);
          assert FirstIndex(items, prev[j].name) == FirstIndex(init, prev[j].name);
        } else {
          assert Registry(items)[j] == t && t.name !in Names(init);
          assert FirstIndex(items, t.name) == |items| - 1;
        }
      }
    } else {
      assert Registry(items) == [];
    }
  }

  /** A later entry reusing a registered name changes nothing. */
  lemma ReuseChangesNothing(items: seq<TypeEntry>, t: TypeEntry)
    requires t.name in Names(items)
    ensures Registry(items + [t]) == Registry(items)
  {
    RegistryNames(items);
    assert (items + [t])[..|items|] == items;
  }

  /** A name carried by some entry is still carried once more entries follow. */
  lemma NamesGrow(items: seq<TypeEntry>, more: seq<TypeEntry>, n: string)
    requires n in Names(items)
    ensures n in Names(items + more)
  {
    var k :| 0 <= k < |items| && Names(items)[k] == n;
    assert Names(items + more)[k] == (items + more)[k].name;
  }

  /** The same, for a whole run of later entries that all reuse registered names. */
  lemma {:induction false} ReuseAllChangesNothing(items: seq<TypeEntry>, ts: seq<TypeEntry>)
    requires forall i :: 0 <= i < |ts| ==> ts[i].name in Names(items)
    ensures Registry(items + ts) == Registry(items)
  {
    if ts != [] {
      var init := ts[..|ts| - 1];
      ReuseAllChangesNothing(items, init);
      var t := ts[|ts| - 1];
      assert items + ts == (items + init) + [t];
      NamesGrow(items, init, t.name);
      ReuseChangesNothing(items + init, t);
    } else {
      assert items + ts == items;
    }
  }

  /** Registering one more entry is one `Register` step. */
  lemma RegistrySnoc(seen: seq<TypeEntry>, t: TypeEntry)
    ensures Registry(seen + [t]) == Register(Registry(seen), t)
  {
    assert (seen + [t])[..|seen|] == seen;
  }

  /** Registering the entries of a mapping one at a time, after those seen before it. */
  lemma RegistryStep(seen: seq<TypeEntry>, types: seq<TypeEntry>, j: nat)
    requires j < |types|
    ensures Registry(seen + types[..j + 1]) == Register(Registry(seen + types[..j]), types[j])
  {
    assert seen + types[..j + 1] == (seen + types[..j]) + [types[j]];
    RegistrySnoc(seen + types[..j], types[j]);
  }

  /** The types of one more layer follow those of the layers before it. */
  lemma AllTypesSnoc(layers: seq<Layer>, i: nat)
    requires i < |layers|
    ensures AllTypes(layers[..i + 1]) == AllTypes(layers[..i]) + layers[i].precision
  {
    assert layers[..i + 1][..i] == layers[..i];
  }

  /** Rendering is concatenation: the text of a registry split in two is the text of the
      first part followed by that of the second. */
  lemma {:induction false} RenderAllAppend(a: seq<TypeEntry>, b: seq<TypeEntry>)
    ensures RenderAll(a + b) == RenderAll(a) + RenderAll(b)
  {
    if b != [] {
      var init := b[..|b| - 1];
      RenderAllAppend(a, init);
      assert (a + b)[..|a + b| - 1] == a + init;
    } else {
      assert a + b == a;
    }
  }

  /** Each registered type's definition is emitted once, between those registered before it
      and those registered after it. */
  lemma {:induction false} RenderAllAt(reg: seq<TypeEntry>, i: nat)
    requires i < |reg|
    ensures RenderAll(reg) == RenderAll(reg[..i]) + reg[i].definition + RenderAll(reg[i + 1..])
  {
    var init, last := reg[..|reg| - 1], reg[|reg| - 1];
    if i == |reg| - 1 {
      assert reg[..i] == init;
      assert reg[i + 1..] == [];
    } else {
      RenderAllAt(init, i);
      var after := reg[i + 1..];
      assert after[..|after| - 1] == init[i + 1..];
      assert init[..i] == reg[..i];
    }
  }

  /** The inner loop over one layer's precision mapping: each entry whose name is not yet
      registered is appended. */
  method RegisterLayer(reg: seq<TypeEntry>, seen: seq<TypeEntry>, types: seq<TypeEntry>)
    returns (reg': seq<TypeEntry>)
    requires reg == Registry(seen)
    ensures reg' == Registry(seen + types)
  {
    reg' := reg;
    var j := 0;
    assert seen + types[..0] == seen;
    while j < |types|
      invariant 0 <= j <= |types|
      invariant reg' == Registry(seen + types[..j])
    {
      RegistryStep(seen, types, j);
      if types[j].name !in Names(reg') {
        reg' := reg' + [types[j]];
      }
      j := j + 1;
    }
    assert types[..j] == types;
  }

  /** The nested loop of the defines branch over every layer's precision mapping
      (`all_precision` filled in place). */
  method BuildRegistry(layers: seq<Layer>) returns (reg: seq<TypeEntry>)
    ensures reg == Registry(AllTypes(layers))
  {
    reg := [];
    var i := 0;
    while i < |layers|
      invariant 0 <= i <= |layers|
      invariant reg == Registry(AllTypes(layers[..i]))
    {
      reg := RegisterLayer(reg, AllTypes(layers[..i]), layers[i].precision);
      AllTypesSnoc(layers, i);
      i := i + 1;
    }
    assert layers[..i] == layers;
  }

  /** The loop that concatenates every registered type's definition. */
  method RenderRegistry(reg: seq<TypeEntry>) returns (text: string)
    ensures text == RenderAll(reg)
  {
    text := "";
    var i := 0;
    while i < |reg|
      invariant 0 <= i <= |reg|
      invariant text == RenderAll(reg[..i])
    {
      assert reg[..i + 1][..i] == reg[..i];
      text := text + reg[i].definition;
      i := i + 1;
    }
    assert reg[..i] == reg;
  }
}

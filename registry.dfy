/** The fragment-name registry (`fragment_mapping`): which bare type names get a
    fragment spread, and under which fragment name. */
module Registry {
  import opened Blocks

  /** The mapping after the loop over the type blocks: every non-root type name
      is mapped to its name followed by "Fragment". */
  function RegisterTypes(types: seq<Block>): map<string, string>
    decreases |types|
  {
    if types == [] then map[]
    else
      var m := RegisterTypes(types[..|types| - 1]);
      var b := types[|types| - 1];
      if IsRootName(b.name) then m else m[b.name := b.name + "Fragment"]
  }

  /** The loop over the union lines, starting from `m`. */
  function RegisterUnions(m: map<string, string>, unions: seq<UnionDecl>): map<string, string>
    decreases |unions|
  {
    if unions == [] then m
    else
      var u := unions[|unions| - 1];
      RegisterUnions(m, unions[..|unions| - 1])[u.name := u.name + "Fragment"]
  }

  /** One more type block: a root type leaves the mapping as it is, any other
      type is mapped to its name followed by "Fragment". */
  lemma RegisterTypesStep(types: seq<Block>, i: nat)
    requires i < |types|
    ensures RegisterTypes(types[..i + 1]) ==
      if IsRootName(types[i].name) then RegisterTypes(types[..i])
      else RegisterTypes(types[..i])[types[i].name := types[i].name + "Fragment"]
  {
    assert types[..i + 1][..i] == types[..i];
  }

  /** One more union line maps the union to its name followed by "Fragment". */
  lemma RegisterUnionsStep(m: map<string, string>, unions: seq<UnionDecl>, j: nat)
    requires j < |unions|
    ensures RegisterUnions(m, unions[..j + 1]) == RegisterUnions(m, unions[..j])[unions[j].name := unions[j].name + "Fragment"]
  {
    assert unions[..j + 1][..j] == unions[..j];
  }

  /** The registry that `get_fragment_name` returns. It depends on the type and
      union blocks only: interfaces and the configured suffix play no part. */
  function FragmentRegistry(types: seq<Block>, unions: seq<UnionDecl>): map<string, string>
  {
    RegisterUnions(RegisterTypes(types), unions)
  }

  /** The non-root type names. */
  function NonRootTypeNames(types: seq<Block>): set<string>
  {
    set b | b in types && !IsRootName(b.name) :: b.name
  }

  /** The union names. */
  function UnionNames(unions: seq<UnionDecl>): set<string>
  {
    set u | u in unions :: u.name
  }

  /** Every value is its key followed by "Fragment". */
  predicate FragmentNamed(m: map<string, string>)
  {
    forall k :: k in m ==> m[k] == k + "Fragment"
  }

  lemma {:induction false} RegisterTypesKeys(types: seq<Block>)
    ensures RegisterTypes(types).Keys == NonRootTypeNames(types)
    ensures FragmentNamed(RegisterTypes(types))
    decreases |types|
  {
    if types != [] {
      var init := types[..|types| - 1];
      RegisterTypesKeys(init);
      assert types == init + [types[|types| - 1]];
      assert forall b :: b in types <==> b in init || b == types[|types| - 1];
    }
  }

  lemma {:induction false} RegisterUnionsKeys(m: map<string, string>, unions: seq<UnionDecl>)
    requires FragmentNamed(m)
    ensures RegisterUnions(m, unions).Keys == m.Keys + UnionNames(unions)
    ensures FragmentNamed(RegisterUnions(m, unions))
    decreases |unions|
  {
    if unions != [] {
      var init := unions[..|unions| - 1];
      RegisterUnionsKeys(m, init);
      assert unions == init + [unions[|unions| - 1]];
      assert forall u :: u in unions <==> u in init || u == unions[|unions| - 1];
    }
  }

  /** The keys are exactly the non-root type names and the union names, and
      each one maps to itself followed by "Fragment". */
  lemma RegistryKeys(types: seq<Block>, unions: seq<UnionDecl>)
    ensures FragmentRegistry(types, unions).Keys == NonRootTypeNames(types) + UnionNames(unions)
    ensures FragmentNamed(FragmentRegistry(types, unions))
  {
    RegisterTypesKeys(types);
    RegisterUnionsKeys(RegisterTypes(types), unions);
  }

  /** `Query`, `Mutation` and `Subscription` are keys only when a union carries
      that name: as type names they never are. */
  lemma RootNameKey(types: seq<Block>, unions: seq<UnionDecl>, k: string)
    requires IsRootName(k)
    ensures k in FragmentRegistry(types, unions) <==> k in UnionNames(unions)
  {
    RegistryKeys(types, unions);
  }

  /** An interface name is a key only when a type or a union has the same name:
      interface blocks themselves are never registered. */
  lemma InterfaceNameKey(types: seq<Block>, unions: seq<UnionDecl>, k: string)
    requires k !in NonRootTypeNames(types) && k !in UnionNames(unions)
    ensures k !in FragmentRegistry(types, unions)
  {
    RegistryKeys(types, unions);
  }
}

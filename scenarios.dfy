/** Worked examples on concrete input that a reader can check by hand. */
module Scenarios {
  import opened PyStr
  import opened Blocks
  import opened Registry
  import opened Fields
  import opened Params
  import opened Render

  /** Empty parentheses are not empty parameter text: they give one empty
      declaration and one empty binding. */
  lemma EmptyParentheses()
    ensures ProcessParams("()") == ("($)", "(: $)")
  {
    assert Inner("()") == [];
    assert ParamParts("()") == [[]];
    assert Strip([]) == [];
    assert ArgName([]) == [];
    assert DeclEntry([]) == "$";
    assert BindEntry([]) == ": $";
    assert DeclEntries([[]])[0] == "$";
    assert BindEntries([[]])[0] == ": $";
    assert DeclEntries([[]]) == ["$"];
    assert BindEntries([[]]) == [": $"];
    assert Join(", ", ["$"]) == "$";
    assert Join(", ", [": $"]) == ": $";
    assert Parenthesise(["$"]) == "($)";
    assert Parenthesise([": $"]) == "(: $)";
  }

  /** A schema with the single type `Pong` registers `Pong` alone. */
  lemma PongRegistry()
    ensures FragmentRegistry([Block("Pong", "ok: Boolean")], []) == map["Pong" := "PongFragment"]
  {
    var types := [Block("Pong", "ok: Boolean")];
    var m := FragmentRegistry(types, []);
    RegistryKeys(types, []);
    assert types[0] in types;
    assert NonRootTypeNames(types) == {"Pong"};
    assert m["Pong"] == "Pong" + "Fragment" == "PongFragment";
  }
}

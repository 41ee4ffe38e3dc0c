/** The extractor object: its configuration, the registry it builds once, the
    side list of registry-time fragments, and the loops that produce the
    output document. */
module Extraction {
  import opened PyStr
  import opened Blocks
  import opened Registry
  import opened Fields
  import opened Params
  import opened Render

  /** `kwargs.get(option, default)` for each of the four suffix options. */
  function ConfigFrom(options: map<string, string>): Config
  {
    Config(
      if "fragment_suffix" in options then options["fragment_suffix"] else DefaultConfig.fragmentSuffix,
      if "query_suffix" in options then options["query_suffix"] else DefaultConfig.querySuffix,
      if "mutation_suffix" in options then options["mutation_suffix"] else DefaultConfig.mutationSuffix,
      if "subscription_suffix" in options then options["subscription_suffix"] else DefaultConfig.subscriptionSuffix)
  }

  /** Without options every suffix takes its default, and an option that is
      given wins over the default. */
  lemma ConfigDefaults(options: map<string, string>)
    ensures ConfigFrom(map[]) == DefaultConfig
    ensures ConfigFrom(options).fragmentSuffix ==
      if "fragment_suffix" in options then options["fragment_suffix"] else "Fragment"
    ensures ConfigFrom(options).querySuffix ==
      if "query_suffix" in options then options["query_suffix"] else "Query"
    ensures ConfigFrom(options).mutationSuffix ==
      if "mutation_suffix" in options then options["mutation_suffix"] else "Mutation"
    ensures ConfigFrom(options).subscriptionSuffix ==
      if "subscription_suffix" in options then options["subscription_suffix"] else "Subscription"
  {
  }

  /** The field names of a body's lines, as the registry loop collects them. */
  function FieldNames(lines: seq<string>): (r: seq<string>)
    ensures |r| == |lines|
  {
    seq(|lines|, i requires 0 <= i < |lines| => FieldName(lines[i]))
  }

  /** The fragment the registry loop records on the side for a non-root type:
      named after the registry value (the type name followed by "Fragment"),
      then the configured suffix, with the field names separated by spaces. */
  function SideFragment(b: Block, suffix: string): string
  {
    FragmentTemplate(b.name + "Fragment", suffix, b.name, Join(" ", FieldNames(FieldLines(b.body))))
  }

  /** The side list after the registry loop over `types`. */
  function SideFragments(types: seq<Block>, suffix: string): seq<string>
    decreases |types|
  {
    if types == [] then []
    else
      var b := types[|types| - 1];
      SideFragments(types[..|types| - 1], suffix) + if IsRootName(b.name) then [] else [SideFragment(b, suffix)]
  }

  lemma SideFragmentsStep(types: seq<Block>, i: nat, suffix: string)
    requires i < |types|
    ensures SideFragments(types[..i + 1], suffix) ==
      SideFragments(types[..i], suffix) + if IsRootName(types[i].name) then [] else [SideFragment(types[i], suffix)]
  {
    assert types[..i + 1][..i] == types[..i];
  }

  /** The side list holds one fragment per non-root type, in order. */
  lemma {:induction false} SideFragmentsOfKept(types: seq<Block>, suffix: string)
    ensures |SideFragments(types, suffix)| == |KeptBlocks(types, true)|
    ensures forall i :: 0 <= i < |KeptBlocks(types, true)| ==>
      SideFragments(types, suffix)[i] == SideFragment(KeptBlocks(types, true)[i], suffix)
    decreases |types|
  {
    if types != [] {
      SideFragmentsOfKept(types[..|types| - 1], suffix);
    }
  }

  /** A side fragment is headed by the type name, "Fragment" and the suffix,
      and it never fails, even for a line without ':'. */
  lemma SideFragmentHeader(b: Block, suffix: string)
    ensures HeadedBy(SideFragment(b, suffix), "fragment " + b.name + "Fragment" + suffix + " on " + b.name + " {")
  {
    var h := "fragment " + b.name + "Fragment" + suffix + " on " + b.name + " {";
    assert SideFragment(b, suffix) == h + Join(" ", FieldNames(FieldLines(b.body))) + "}";
  }

  class Extractor {
    /** The blocks found in the schema text. */
    const schema: Schema
    const config: Config
    /** The side list of fragments the registry loop records. */
    var fragments: seq<string>
    /** The fragment-name registry. */
    var fragmentMapping: map<string, string>

    /** The registry is the one built from the schema's type and union blocks. */
    predicate Valid()
      reads this
    {
      fragmentMapping == FragmentRegistry(schema.types, schema.unions)
    }

    /** Reads the options, starts an empty side list and builds the registry. */
    constructor (schema: Schema, options: map<string, string>)
      ensures this.schema == schema && config == ConfigFrom(options)
      ensures fragments == SideFragments(schema.types, config.fragmentSuffix)
      ensures Valid()
    {
      this.schema := schema;
      config := ConfigFrom(options);
      fragments := [];
      fragmentMapping := map[];
      new;
      fragmentMapping := GetFragmentName();
    }

    /** `get_fragment_name`: maps every non-root type and then every union to
        its name followed by "Fragment", and appends a side fragment for each
        non-root type. */
    method GetFragmentName() returns (mapping: map<string, string>)
      modifies this`fragments
      ensures mapping == FragmentRegistry(schema.types, schema.unions)
      ensures fragments == old(fragments) + SideFragments(schema.types, config.fragmentSuffix)
    {
      mapping := map[];
      var suffix := config.fragmentSuffix;
      var types := schema.types;
      var i := 0;
      while i < |types|
        invariant 0 <= i <= |types|
        invariant mapping == RegisterTypes(types[..i])
        invariant fragments == old(fragments) + SideFragments(types[..i], suffix)
      {
        var b := types[i];
        RegisterTypesStep(types, i);
        SideFragmentsStep(types, i, suffix);
        if !IsRootName(b.name) {
          var fragmentName := b.name + "Fragment";
          var fieldNames := FieldNames(FieldLines(b.body));
          fragments := fragments + [FragmentTemplate(fragmentName, suffix, b.name, Join(" ", fieldNames))];
          mapping := mapping[b.name := fragmentName];
        }
        i := i + 1;
      }
      assert types[..|types|] == types;
      var unions := schema.unions;
      var j := 0;
      while j < |unions|
        invariant 0 <= j <= |unions|
        invariant mapping == RegisterUnions(RegisterTypes(types), unions[..j])
        invariant fragments == old(fragments) + SideFragments(types, suffix)
      {
        RegisterUnionsStep(RegisterTypes(types), unions, j);
        mapping := mapping[unions[j].name := unions[j].name + "Fragment"];
        j := j + 1;
      }
      assert unions[..|unions|] == unions;
    }

    /** The body of the `process_fields` loop for one line: the field name,
        or a sub-selection spreading the fragment registered for the bare
        type; a line without ':' fails. */
    method ProcessLine(line: string) returns (r: Result<string>)
      ensures r == ResolveField(line, fragmentMapping)
    {
      var parts := Split(line, ':');
      if |parts| < 2 {
        return Err(MissingColon(line));
      }
      var fieldName := Strip(parts[0]);
      var normalizedType := Normalize(Strip(parts[1]));
      if normalizedType in fragmentMapping {
        r := Ok(SpreadEntry(fieldName, fragmentMapping[normalizedType]));
      } else {
        r := Ok(fieldName);
      }
    }

    /** `process_fields`: resolves the lines of a body in order and fails on
        the first line without ':'. */
    method ProcessFields(body: string) returns (r: Result<seq<string>>)
      ensures r == ResolveFields(body, fragmentMapping)
    {
      var m := fragmentMapping;
      var lines := FieldLines(body);
      var processed := [];
      var i := 0;
      while i < |lines|
        invariant 0 <= i <= |lines|
        invariant ResolveLines(lines[..i], m) == Ok(processed)
      {
        var entry := ProcessLine(lines[i]);
        ResolveLinesStep(lines, i, m);
        if entry.Err? {
          ResolveLinesPrefixErr(lines, i + 1, m);
          return Err(entry.error);
        }
        processed := processed + [entry.value];
        i := i + 1;
      }
      assert lines[..|lines|] == lines;
      r := Ok(processed);
    }

    /** The body of the block loops of `extract_fragments_from_schema`: the
        block's resolved fields, one per line, in the fragment template. */
    method RenderBlock(b: Block) returns (r: Result<string>)
      ensures r == BlockFragment(b, fragmentMapping, config.fragmentSuffix)
    {
      var fields := ProcessFields(b.body);
      if fields.Err? {
        return Err(fields.error);
      }
      r := Ok(FragmentTemplate(b.name, config.fragmentSuffix, b.name, Join("\n  ", fields.value)));
    }

    /** The loop of `extract_fragments_from_schema` over the type blocks
        (skipping root types) or over the interface blocks: one fragment per
        kept block, in order, or the failure of the first block whose body
        does not resolve. */
    method BlockFragmentsLoop(blocks: seq<Block>, skipRoots: bool) returns (r: Result<seq<string>>)
      ensures r == BlockFragments(blocks, skipRoots, fragmentMapping, config.fragmentSuffix)
    {
      var m := fragmentMapping;
      var suffix := config.fragmentSuffix;
      var result := [];
      var i := 0;
      while i < |blocks|
        invariant 0 <= i <= |blocks|
        invariant BlockFragments(blocks[..i], skipRoots, m, suffix) == Ok(result)
      {
        var b := blocks[i];
        if skipRoots && IsRootName(b.name) {
          BlockFragmentsSkip(blocks, i, skipRoots, m, suffix);
        } else {
          var fragment := RenderBlock(b);
          BlockFragmentsAppend(blocks, i, skipRoots, m, suffix, fragment);
          if fragment.Err? {
            BlockFragmentsErr(blocks, i + 1, skipRoots, m, suffix);
            return Err(fragment.error);
          }
          result := result + [fragment.value];
        }
        i := i + 1;
      }
      assert blocks[..|blocks|] == blocks;
      r := Ok(result);
    }

    /** `extract_fragments_from_schema`: one fragment per non-root type, then
        one per interface, then one per union; the first body that does not
        resolve ends the extraction with its failure. */
    method ExtractFragmentsFromSchema() returns (r: Result<seq<string>>)
      ensures r == SchemaFragments(schema, fragmentMapping, config.fragmentSuffix)
    {
      var m := fragmentMapping;
      var suffix := config.fragmentSuffix;
      var typeFragments := BlockFragmentsLoop(schema.types, true);
      if typeFragments.Err? {
        return Err(typeFragments.error);
      }
      var interfaceFragments := BlockFragmentsLoop(schema.interfaces, false);
      if interfaceFragments.Err? {
        return Err(interfaceFragments.error);
      }
      var result := typeFragments.value + interfaceFragments.value;
      var unions := schema.unions;
      var i := 0;
      while i < |unions|
        invariant 0 <= i <= |unions|
        invariant result == typeFragments.value + interfaceFragments.value + UnionFragments(unions[..i], m, suffix)
      {
        var u := unions[i];
        var memberFragments := MemberSpreads(Split(u.members, '|'), m, suffix);
        result := result + [FragmentTemplate(u.name, suffix, u.name, Join("\n", memberFragments))];
        UnionFragmentsStep(unions, i, m, suffix);
        i := i + 1;
      }
      assert unions[..|unions|] == unions;
      r := Ok(result);
    }

    /** The loop shared by `extract_queries_from_schema`,
        `extract_mutations_from_schema` and `extract_subscriptions_from_schema`:
        one operation per root field of that kind, in order. */
    method ExtractOperations(kind: OpKind) returns (ops: seq<string>)
      ensures ops == Operations(kind, RootFieldsOf(schema, kind), fragmentMapping, SuffixOf(config, kind))
    {
      var m := fragmentMapping;
      var suffix := SuffixOf(config, kind);
      var fields := RootFieldsOf(schema, kind);
      ops := [];
      var i := 0;
      while i < |fields|
        invariant 0 <= i <= |fields|
        invariant ops == Operations(kind, fields[..i], m, suffix)
      {
        var op := RenderField(kind, fields[i]);
        OperationsStep(kind, fields, i, m, suffix);
        ops := ops + [op];
        i := i + 1;
      }
      assert fields[..|fields|] == fields;
    }

    /** The body of the operation loops for one root field: the declaration
        and binding clauses of its parameters, and the spread of the fragment
        registered for its bare return type, if any, in the template of its
        root kind. */
    method RenderField(kind: OpKind, f: RootField) returns (op: string)
      ensures op == RenderOperation(kind, SuffixOf(config, kind), f, fragmentMapping)
    {
      var (formattedParams, paramsInside) := ProcessParams(f.params);
      var t := Normalize(f.returnType);
      var fragmentName := if t in fragmentMapping then fragmentMapping[t] else [];
      var maybeFragmentName := if fragmentName != [] then "{..." + fragmentName + "}" else [];
      var gap := if kind == QueryOp then [] else " ";
      op := Keyword(kind) + " " + f.name + SuffixOf(config, kind) + formattedParams + gap +
        "{" + f.name + paramsInside + " " + maybeFragmentName + "}";
    }

    /** `extract_queries_from_schema`. */
    method ExtractQueries() returns (queries: seq<string>)
      ensures queries == Operations(QueryOp, schema.queryFields, fragmentMapping, config.querySuffix)
    {
      queries := ExtractOperations(QueryOp);
    }

    /** `extract_mutations_from_schema`. */
    method ExtractMutations() returns (mutations: seq<string>)
      ensures mutations == Operations(MutationOp, schema.mutationFields, fragmentMapping, config.mutationSuffix)
    {
      mutations := ExtractOperations(MutationOp);
    }

    /** `extract_subscriptions_from_schema`. */
    method ExtractSubscriptions() returns (subscriptions: seq<string>)
      ensures subscriptions == Operations(SubscriptionOp, schema.subscriptionFields, fragmentMapping, config.subscriptionSuffix)
    {
      subscriptions := ExtractOperations(SubscriptionOp);
    }

    /** `extract`: the queries are computed first, then the fragments, which
        may fail; the document lists the fragments, the queries, the mutations
        and the subscriptions, separated by blank lines. */
    method Extract() returns (r: Result<string>)
      requires Valid()
      ensures r == ExtractDocument(schema, config)
    {
      var queries := ExtractQueries();
      var fragmentList := ExtractFragmentsFromSchema();
      if fragmentList.Err? {
        return Err(fragmentList.error);
      }
      var mutations := ExtractMutations();
      var subscriptions := ExtractSubscriptions();
      r := Ok(Join("\n\n", fragmentList.value + queries + mutations + subscriptions));
    }
  }
}

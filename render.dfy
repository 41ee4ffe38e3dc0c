/** Template rendering: fragments for type, interface and union blocks,
    query/mutation/subscription operations for root fields, and the final
    document that joins them. */
module Render {
  import opened PyStr
  import opened Blocks
  import opened Registry
  import opened Fields
  import opened Params

  /** The fragment template: the keyword `fragment`, the fragment name followed
      by the configured suffix, `on`, the type name, then the fields in braces. */
  function FragmentTemplate(fragmentName: string, suffix: string, typeName: string, fields: string): string
  {
    "fragment " + fragmentName + suffix + " on " + typeName + " {" + fields + "}"
  }

  /** How every fragment of the output for `name` begins. */
  function FragmentHeader(name: string, suffix: string): string
  {
    "fragment " + name + suffix + " on " + name + " {"
  }

  /** The fragment for a type or interface block: its resolved fields, one per
      line with a two-space indent. */
  function BlockFragment(b: Block, m: map<string, string>, suffix: string): Result<string>
  {
    match ResolveFields(b.body, m)
    case Err(e) => Err(e)
    case Ok(fields) => Ok(FragmentTemplate(b.name, suffix, b.name, Join("\n  ", fields)))
  }

  /** The blocks that get a fragment: all of them, or, for type blocks, those
      whose name is not a root type name. */
  function KeptBlocks(blocks: seq<Block>, skipRoots: bool): seq<Block>
    decreases |blocks|
  {
    if blocks == [] then []
    else
      var init := KeptBlocks(blocks[..|blocks| - 1], skipRoots);
      var b := blocks[|blocks| - 1];
      if skipRoots && IsRootName(b.name) then init else init + [b]
  }

  /** The fragment of each block, in order. */
  function BlockResults(blocks: seq<Block>, m: map<string, string>, suffix: string): (r: seq<Result<string>>)
    ensures |r| == |blocks|
  {
    seq(|blocks|, i requires 0 <= i < |blocks| => BlockFragment(blocks[i], m, suffix))
  }

  /** The loop over type blocks (`skipRoots`) or interface blocks: stops at the
      first kept block whose fields cannot be resolved. */
  function BlockFragments(blocks: seq<Block>, skipRoots: bool, m: map<string, string>, suffix: string): Result<seq<string>>
  {
    Collect(BlockResults(KeptBlocks(blocks, skipRoots), m, suffix))
  }

  /** The fragment a union member spreads: the registered one, or the member
      name followed by the configured suffix when the member is not registered. */
  function FragmentFor(member: string, m: map<string, string>, suffix: string): string
  {
    if member in m then m[member] else member + suffix
  }

  /** The inline fragment for one `|`-separated union member. */
  function MemberSpread(member: string, m: map<string, string>, suffix: string): string
  {
    var x := Strip(member);
    "... on " + x + " {\n    ..." + FragmentFor(x, m, suffix) + "\n  }"
  }

  function MemberSpreads(members: seq<string>, m: map<string, string>, suffix: string): (r: seq<string>)
    ensures |r| == |members|
  {
    seq(|members|, i requires 0 <= i < |members| => MemberSpread(members[i], m, suffix))
  }

  /** The fragment for a union: one inline fragment per member, one per line. */
  function UnionFragment(u: UnionDecl, m: map<string, string>, suffix: string): string
  {
    FragmentTemplate(u.name, suffix, u.name, Join("\n", MemberSpreads(Split(u.members, '|'), m, suffix)))
  }

  function UnionFragments(unions: seq<UnionDecl>, m: map<string, string>, suffix: string): (r: seq<string>)
    ensures |r| == |unions|
  {
    seq(|unions|, i requires 0 <= i < |unions| => UnionFragment(unions[i], m, suffix))
  }

  lemma UnionFragmentsStep(unions: seq<UnionDecl>, i: nat, m: map<string, string>, suffix: string)
    requires i < |unions|
    ensures UnionFragments(unions[..i + 1], m, suffix) == UnionFragments(unions[..i], m, suffix) + [UnionFragment(unions[i], m, suffix)]
  {
    var l := UnionFragments(unions[..i + 1], m, suffix);
    var r := UnionFragments(unions[..i], m, suffix) + [UnionFragment(unions[i], m, suffix)];
    forall j | 0 <= j < |l|
      ensures l[j] == r[j]
    {
      assert unions[..i + 1][j] == unions[j];
      if j < i {
        assert unions[..i][j] == unions[j];
      }
    }
  }

  /** `extract_fragments_from_schema`: type fragments, then interface
      fragments, then union fragments. */
  function SchemaFragments(s: Schema, m: map<string, string>, suffix: string): Result<seq<string>>
  {
    match BlockFragments(s.types, true, m, suffix)
    case Err(e) => Err(e)
    case Ok(typeFragments) =>
      match BlockFragments(s.interfaces, false, m, suffix)
      case Err(e) => Err(e)
      case Ok(interfaceFragments) => Ok(typeFragments + interfaceFragments + UnionFragments(s.unions, m, suffix))
  }

  /** The names the fragments of the output are for, in output order. */
  function FragmentOwners(s: Schema): seq<string>
  {
    Names(KeptBlocks(s.types, true)) + Names(s.interfaces) + UnionNameList(s.unions)
  }

  function Names(blocks: seq<Block>): (r: seq<string>)
    ensures |r| == |blocks|
  {
    seq(|blocks|, i requires 0 <= i < |blocks| => blocks[i].name)
  }

  function UnionNameList(unions: seq<UnionDecl>): (r: seq<string>)
    ensures |r| == |unions|
  {
    seq(|unions|, i requires 0 <= i < |unions| => unions[i].name)
  }

  lemma FragmentHeaderBegins(name: string, suffix: string, fields: string)
    ensures HeadedBy(FragmentTemplate(name, suffix, name, fields), FragmentHeader(name, suffix))
  {
    var h := FragmentHeader(name, suffix);
    assert FragmentTemplate(name, suffix, name, fields) == h + fields + "}";
  }

  /** When every kept block resolves, there is one fragment per kept block,
      in block order. */
  lemma BlockFragmentsOk(blocks: seq<Block>, skipRoots: bool, m: map<string, string>, suffix: string)
    requires forall i :: 0 <= i < |KeptBlocks(blocks, skipRoots)| ==> ResolveFields(KeptBlocks(blocks, skipRoots)[i].body, m).Ok?
    ensures BlockFragments(blocks, skipRoots, m, suffix).Ok?
    ensures |BlockFragments(blocks, skipRoots, m, suffix).value| == |KeptBlocks(blocks, skipRoots)|
    ensures forall i :: 0 <= i < |KeptBlocks(blocks, skipRoots)| ==>
      BlockFragment(KeptBlocks(blocks, skipRoots)[i], m, suffix) == Ok(BlockFragments(blocks, skipRoots, m, suffix).value[i])
  {
    CollectOk(BlockResults(KeptBlocks(blocks, skipRoots), m, suffix));
  }

  /** A kept block with a line without ':' makes the whole loop fail. */
  lemma BlockFragmentsFail(blocks: seq<Block>, skipRoots: bool, m: map<string, string>, suffix: string, k: nat)
    requires k < |KeptBlocks(blocks, skipRoots)| && ResolveFields(KeptBlocks(blocks, skipRoots)[k].body, m).Err?
    ensures BlockFragments(blocks, skipRoots, m, suffix).Err?
  {
    CollectErr(BlockResults(KeptBlocks(blocks, skipRoots), m, suffix), k);
  }

  /** Keeping blocks distributes over concatenation. */
  lemma {:induction false} KeptConcat(a: seq<Block>, b: seq<Block>, skipRoots: bool)
    ensures KeptBlocks(a + b, skipRoots) == KeptBlocks(a, skipRoots) + KeptBlocks(b, skipRoots)
    decreases |b|
  {
    if b == [] {
      assert a + b == a;
    } else {
      var c := a + b;
      assert c[..|c| - 1] == a + b[..|b| - 1];
      assert c[|c| - 1] == b[|b| - 1];
      KeptConcat(a, b[..|b| - 1], skipRoots);
    }
  }

  lemma BlockResultsConcat(a: seq<Block>, b: seq<Block>, m: map<string, string>, suffix: string)
    ensures BlockResults(a + b, m, suffix) == BlockResults(a, m, suffix) + BlockResults(b, m, suffix)
  {
    var l := BlockResults(a + b, m, suffix);
    var r := BlockResults(a, m, suffix) + BlockResults(b, m, suffix);
    forall i | 0 <= i < |l|
      ensures l[i] == r[i]
    {
      if i < |a| {
        assert (a + b)[i] == a[i];
      } else {
        assert (a + b)[i] == b[i - |a|];
      }
    }
  }

  /** Taking one more block that is a skipped root type changes nothing. */
  lemma BlockFragmentsSkip(blocks: seq<Block>, i: nat, skipRoots: bool, m: map<string, string>, suffix: string)
    requires i < |blocks| && skipRoots && IsRootName(blocks[i].name)
    ensures BlockFragments(blocks[..i + 1], skipRoots, m, suffix) == BlockFragments(blocks[..i], skipRoots, m, suffix)
  {
    KeptStep(blocks, i, skipRoots);
    assert KeptBlocks(blocks[..i + 1], skipRoots) == KeptBlocks(blocks[..i], skipRoots);
  }

  /** Taking one more block that is kept adds one step, its fragment, to the
      loop. */
  lemma BlockFragmentsKeep(blocks: seq<Block>, i: nat, skipRoots: bool, m: map<string, string>, suffix: string)
    requires i < |blocks| && !(skipRoots && IsRootName(blocks[i].name))
    ensures BlockFragments(blocks[..i + 1], skipRoots, m, suffix) ==
      Collect(BlockResults(KeptBlocks(blocks[..i], skipRoots), m, suffix) + [BlockFragment(blocks[i], m, suffix)])
  {
    var b := blocks[i];
    var kept := KeptBlocks(blocks[..i], skipRoots);
    KeptStep(blocks, i, skipRoots);
    BlockResultsConcat(kept, [b], m, suffix);
    assert BlockResults([b], m, suffix) == [BlockFragment(b, m, suffix)];
  }

  /** The loop's step for a kept block whose fragment is `x`. */
  lemma BlockFragmentsAppend(blocks: seq<Block>, i: nat, skipRoots: bool, m: map<string, string>, suffix: string, x: Result<string>)
    requires i < |blocks| && !(skipRoots && IsRootName(blocks[i].name))
    requires BlockFragments(blocks[..i], skipRoots, m, suffix).Ok?
    requires x == BlockFragment(blocks[i], m, suffix)
    ensures BlockFragments(blocks[..i + 1], skipRoots, m, suffix) ==
      if x.Err? then Err(x.error) else Ok(BlockFragments(blocks[..i], skipRoots, m, suffix).value + [x.value])
  {
    BlockFragmentsKeep(blocks, i, skipRoots, m, suffix);
    CollectSnoc(BlockResults(KeptBlocks(blocks[..i], skipRoots), m, suffix), x);
  }

  lemma KeptStep(blocks: seq<Block>, i: nat, skipRoots: bool)
    requires i < |blocks|
    ensures KeptBlocks(blocks[..i + 1], skipRoots) ==
      KeptBlocks(blocks[..i], skipRoots) + if skipRoots && IsRootName(blocks[i].name) then [] else [blocks[i]]
  {
    assert blocks[..i + 1][..i] == blocks[..i];
  }

  /** A failure in a prefix of the blocks is the failure of the whole loop. */
  lemma BlockFragmentsErr(blocks: seq<Block>, k: nat, skipRoots: bool, m: map<string, string>, suffix: string)
    requires k <= |blocks|
    requires BlockFragments(blocks[..k], skipRoots, m, suffix).Err?
    ensures BlockFragments(blocks, skipRoots, m, suffix) == BlockFragments(blocks[..k], skipRoots, m, suffix)
  {
    var front := KeptBlocks(blocks[..k], skipRoots);
    var back := KeptBlocks(blocks[k..], skipRoots);
    assert blocks[..k] + blocks[k..] == blocks;
    KeptConcat(blocks[..k], blocks[k..], skipRoots);
    BlockResultsConcat(front, back, m, suffix);
    CollectPrefixErr(BlockResults(front, m, suffix), BlockResults(back, m, suffix));
  }

  /** Every non-root type block and every interface block resolves. */
  predicate AllBlocksResolve(s: Schema, m: map<string, string>)
  {
    AllResolve(KeptBlocks(s.types, true), m) && AllResolve(s.interfaces, m)
  }

  predicate AllResolve(blocks: seq<Block>, m: map<string, string>)
  {
    forall i :: 0 <= i < |blocks| ==> ResolveFields(blocks[i].body, m).Ok?
  }

  /** The loop over blocks succeeds exactly when every kept block resolves. */
  lemma BlockFragmentsResolve(blocks: seq<Block>, skipRoots: bool, m: map<string, string>, suffix: string)
    ensures BlockFragments(blocks, skipRoots, m, suffix).Ok? <==> AllResolve(KeptBlocks(blocks, skipRoots), m)
  {
    var kept := KeptBlocks(blocks, skipRoots);
    if AllResolve(kept, m) {
      BlockFragmentsOk(blocks, skipRoots, m, suffix);
    } else {
      var k :| 0 <= k < |kept| && ResolveFields(kept[k].body, m).Err?;
      BlockFragmentsFail(blocks, skipRoots, m, suffix, k);
    }
  }

  /** `text` starts with `prefix`. */
  predicate HeadedBy(text: string, prefix: string)
  {
    |prefix| <= |text| && text[..|prefix|] == prefix
  }

  /** Fragment `i` of `fragments` is the fragment of `owners[i]`. */
  predicate HeadedByOwners(fragments: seq<string>, owners: seq<string>, suffix: string)
  {
    |fragments| == |owners| &&
    forall i :: 0 <= i < |owners| ==> HeadedBy(fragments[i], FragmentHeader(owners[i], suffix))
  }

  lemma HeadedByOwnersConcat(f1: seq<string>, o1: seq<string>, f2: seq<string>, o2: seq<string>, suffix: string)
    requires HeadedByOwners(f1, o1, suffix) && HeadedByOwners(f2, o2, suffix)
    ensures HeadedByOwners(f1 + f2, o1 + o2, suffix)
  {
    forall i | 0 <= i < |o1 + o2|
      ensures HeadedBy((f1 + f2)[i], FragmentHeader((o1 + o2)[i], suffix))
    {
      if i >= |o1| {
        assert (f1 + f2)[i] == f2[i - |o1|] && (o1 + o2)[i] == o2[i - |o1|];
      }
    }
  }

  lemma BlockFragmentHeaded(b: Block, m: map<string, string>, suffix: string)
    requires BlockFragment(b, m, suffix).Ok?
    ensures HeadedBy(BlockFragment(b, m, suffix).value, FragmentHeader(b.name, suffix))
  {
    FragmentHeaderBegins(b.name, suffix, Join("\n  ", ResolveFields(b.body, m).value));
  }

  /** One fragment per kept block, each for that block. */
  lemma BlockFragmentsHeaded(blocks: seq<Block>, skipRoots: bool, m: map<string, string>, suffix: string)
    requires AllResolve(KeptBlocks(blocks, skipRoots), m)
    ensures BlockFragments(blocks, skipRoots, m, suffix).Ok?
    ensures HeadedByOwners(BlockFragments(blocks, skipRoots, m, suffix).value, Names(KeptBlocks(blocks, skipRoots)), suffix)
  {
    var kept := KeptBlocks(blocks, skipRoots);
    BlockFragmentsOk(blocks, skipRoots, m, suffix);
    var r := BlockFragments(blocks, skipRoots, m, suffix).value;
    forall i | 0 <= i < |kept|
      ensures HeadedBy(r[i], FragmentHeader(Names(kept)[i], suffix))
    {
      BlockFragmentHeaded(kept[i], m, suffix);
    }
  }

  /** One fragment per union, each for that union. */
  lemma UnionFragmentsHeaded(unions: seq<UnionDecl>, m: map<string, string>, suffix: string)
    ensures HeadedByOwners(UnionFragments(unions, m, suffix), UnionNameList(unions), suffix)
  {
    forall i | 0 <= i < |unions|
      ensures HeadedBy(UnionFragments(unions, m, suffix)[i], FragmentHeader(unions[i].name, suffix))
    {
      var u := unions[i];
      FragmentHeaderBegins(u.name, suffix, Join("\n", MemberSpreads(Split(u.members, '|'), m, suffix)));
    }
  }

  /** Fragment coverage: when every non-root type and every interface resolves,
      there is one fragment for every non-root type, every interface and every
      union, in that order, each headed by its owner's name followed by the
      configured suffix. */
  lemma SchemaFragmentsCoverage(s: Schema, m: map<string, string>, suffix: string)
    requires AllBlocksResolve(s, m)
    ensures SchemaFragments(s, m, suffix).Ok?
    ensures HeadedByOwners(SchemaFragments(s, m, suffix).value, FragmentOwners(s), suffix)
  {
    KeepAll(s.interfaces);
    BlockFragmentsHeaded(s.types, true, m, suffix);
    BlockFragmentsHeaded(s.interfaces, false, m, suffix);
    UnionFragmentsHeaded(s.unions, m, suffix);
    var a := BlockFragments(s.types, true, m, suffix).value;
    var b := BlockFragments(s.interfaces, false, m, suffix).value;
    var c := UnionFragments(s.unions, m, suffix);
    HeadedByOwnersConcat(a, Names(KeptBlocks(s.types, true)), b, Names(s.interfaces), suffix);
    HeadedByOwnersConcat(a + b, Names(KeptBlocks(s.types, true)) + Names(s.interfaces), c, UnionNameList(s.unions), suffix);
  }

  /** Fragment extraction fails exactly when a non-root type or an interface
      has a body that does not resolve (a field line without ':'). */
  lemma SchemaFragmentsFail(s: Schema, m: map<string, string>, suffix: string)
    ensures SchemaFragments(s, m, suffix).Err? <==> !AllBlocksResolve(s, m)
  {
    KeepAll(s.interfaces);
    BlockFragmentsResolve(s.types, true, m, suffix);
    BlockFragmentsResolve(s.interfaces, false, m, suffix);
  }

  lemma {:induction false} KeepAll(blocks: seq<Block>)
    ensures KeptBlocks(blocks, false) == blocks
    decreases |blocks|
  {
    if blocks != [] {
      KeepAll(blocks[..|blocks| - 1]);
      assert blocks[..|blocks| - 1] + [blocks[|blocks| - 1]] == blocks;
    }
  }

  /** With the registry `get_fragment_name` builds, a union member spreads
      `member + "Fragment"` when it is registered and `member + suffix` when it
      is not; with the default suffix the two agree. */
  lemma UnionMemberTarget(x: string, types: seq<Block>, unions: seq<UnionDecl>, suffix: string)
    ensures var m := FragmentRegistry(types, unions);
      FragmentFor(x, m, suffix) ==
        if x in NonRootTypeNames(types) + UnionNames(unions) then x + "Fragment" else x + suffix
  {
    RegistryKeys(types, unions);
  }

  /** The fragment name an operation looks up for its bare return type, or ""
      when there is none. */
  function OperationFragment(f: RootField, m: map<string, string>): string
  {
    var t := Normalize(f.returnType);
    if t in m then m[t] else []
  }

  /** The operation's selection: a spread of that fragment in braces, or
      nothing when the lookup gave "". */
  function OperationSelection(f: RootField, m: map<string, string>): string
  {
    var fragmentName := OperationFragment(f, m);
    if fragmentName != [] then "{..." + fragmentName + "}" else []
  }

  /** The operation keyword of each root kind. */
  function Keyword(kind: OpKind): string
  {
    match kind
    case QueryOp => "query"
    case MutationOp => "mutation"
    case SubscriptionOp => "subscription"
  }

  /** One operation per root field: keyword, field name, configured suffix and
      declaration clause; then, in braces, the field name, binding clause, a
      space and the selection. The query template has no space before its
      opening brace; the mutation and subscription templates have one. */
  function RenderOperation(kind: OpKind, suffix: string, f: RootField, m: map<string, string>): string
  {
    var clauses := ProcessParams(f.params);
    var gap := if kind == QueryOp then [] else " ";
    Keyword(kind) + " " + f.name + suffix + clauses.0 + gap + "{" + f.name + clauses.1 + " " + OperationSelection(f, m) + "}"
  }

  /** The loop of `extract_queries_from_schema` and its two siblings. */
  function Operations(kind: OpKind, fields: seq<RootField>, m: map<string, string>, suffix: string): seq<string>
  {
    MapSeq(f => RenderOperation(kind, suffix, f, m), fields)
  }

  /** One operation per root field, operation i for field i. */
  lemma OperationsOfFields(kind: OpKind, fields: seq<RootField>, m: map<string, string>, suffix: string)
    ensures |Operations(kind, fields, m, suffix)| == |fields|
    ensures forall i :: 0 <= i < |fields| ==> Operations(kind, fields, m, suffix)[i] == RenderOperation(kind, suffix, fields[i], m)
  {
    MapSeqIndex(f => RenderOperation(kind, suffix, f, m), fields);
  }

  /** Operations keep the order of their fields: the operations of the fields
      `a + b` are those of `a`, then those of `b`. */
  lemma OperationsConcat(kind: OpKind, a: seq<RootField>, b: seq<RootField>, m: map<string, string>, suffix: string)
    ensures Operations(kind, a + b, m, suffix) == Operations(kind, a, m, suffix) + Operations(kind, b, m, suffix)
  {
    MapSeqConcat(f => RenderOperation(kind, suffix, f, m), a, b);
  }

  lemma OperationsStep(kind: OpKind, fields: seq<RootField>, i: nat, m: map<string, string>, suffix: string)
    requires i < |fields|
    ensures Operations(kind, fields[..i + 1], m, suffix) ==
      Operations(kind, fields[..i], m, suffix) + [RenderOperation(kind, suffix, fields[i], m)]
  {
    MapSeqStep(f => RenderOperation(kind, suffix, f, m), fields, i);
  }

  /** An operation selects its return type's fragment exactly when the bare
      return type is a registry key, and then the spread names that type
      followed by "Fragment"; otherwise its selection is empty. */
  lemma OperationSelectionIff(f: RootField, types: seq<Block>, unions: seq<UnionDecl>)
    ensures var m := FragmentRegistry(types, unions); var t := Normalize(f.returnType);
      (OperationSelection(f, m) != [] <==> t in m) &&
      (t in m ==> OperationSelection(f, m) == "{..." + t + "Fragment}")
  {
    RegistryKeys(types, unions);
  }

  /** Text without parentheses. */
  predicate ParenFree(text: string)
  {
    '(' !in text && ')' !in text
  }

  /** The selection brings no parentheses of its own: with a registry whose
      values are their keys followed by "Fragment" (as `get_fragment_name`
      builds it, see RegistryKeys), it is made of braces, dots, the bare
      return type and "Fragment". */
  lemma SelectionParenFree(f: RootField, m: map<string, string>)
    requires FragmentNamed(m) && ParenFree(f.returnType)
    ensures ParenFree(OperationSelection(f, m))
  {
    var t := Normalize(f.returnType);
    assert ParenFree(t) by {
      NormalizeBare(f.returnType);
    }
    if t in m {
      assert m[t] == t + "Fragment";
      assert ParenFree("{..." + t + "Fragment" + "}");
    }
  }

  /** A root field without parameters renders without parentheses anywhere,
      as long as its name, the suffix and its return type have none: empty
      parameter text adds no clause to the signature or to the field call. */
  lemma NoParenthesesWithoutParams(kind: OpKind, suffix: string, f: RootField, m: map<string, string>)
    requires FragmentNamed(m)
    requires f.params == []
    requires ParenFree(f.name) && ParenFree(suffix) && ParenFree(f.returnType)
    ensures ParenFree(RenderOperation(kind, suffix, f, m))
  {
    var sel := OperationSelection(f, m);
    SelectionParenFree(f, m);
    RenderWithoutParams(kind, suffix, f, m);
    TextParenFree(Keyword(kind), f.name + suffix, if kind == QueryOp then [] else " ", f.name, sel);
  }

  /** Empty parameter text contributes nothing to the operation. */
  lemma RenderWithoutParams(kind: OpKind, suffix: string, f: RootField, m: map<string, string>)
    requires f.params == []
    ensures RenderOperation(kind, suffix, f, m) ==
      Keyword(kind) + " " + f.name + suffix + (if kind == QueryOp then [] else " ") + "{" + f.name + " " + OperationSelection(f, m) + "}"
  {
    assert ProcessParams(f.params) == ([], []);
  }

  lemma TextParenFree(keyword: string, signature: string, gap: string, call: string, sel: string)
    requires ParenFree(keyword) && ParenFree(signature) && ParenFree(gap) && ParenFree(call) && ParenFree(sel)
    ensures ParenFree(keyword + " " + signature + gap + "{" + call + " " + sel + "}")
  {
  }

  /** The selected root fields and suffix of each root kind. */
  function RootFieldsOf(s: Schema, kind: OpKind): seq<RootField>
  {
    match kind
    case QueryOp => s.queryFields
    case MutationOp => s.mutationFields
    case SubscriptionOp => s.subscriptionFields
  }

  function SuffixOf(c: Config, kind: OpKind): string
  {
    match kind
    case QueryOp => c.querySuffix
    case MutationOp => c.mutationSuffix
    case SubscriptionOp => c.subscriptionSuffix
  }

  /** The output document: fragments, queries, mutations, subscriptions,
      separated by blank lines. */
  function Document(fragments: seq<string>, queries: seq<string>, mutations: seq<string>, subscriptions: seq<string>): string
  {
    Join("\n\n", fragments + queries + mutations + subscriptions)
  }

  /** What `extract` writes for a schema: the document, or the failure of the
      fragment extraction (the operations cannot fail). */
  function ExtractDocument(s: Schema, c: Config): Result<string>
  {
    var m := FragmentRegistry(s.types, s.unions);
    match SchemaFragments(s, m, c.fragmentSuffix)
    case Err(e) => Err(e)
    case Ok(fragments) =>
      Ok(Document(fragments,
                  Operations(QueryOp, s.queryFields, m, c.querySuffix),
                  Operations(MutationOp, s.mutationFields, m, c.mutationSuffix),
                  Operations(SubscriptionOp, s.subscriptionFields, m, c.subscriptionSuffix)))
  }

  /** The whole extraction fails exactly when a non-root type or an interface
      has a body with a line without ':'; the operations never fail. */
  lemma ExtractDocumentFails(s: Schema, c: Config)
    ensures ExtractDocument(s, c).Err? <==> !AllBlocksResolve(s, FragmentRegistry(s.types, s.unions))
  {
    SchemaFragmentsFail(s, FragmentRegistry(s.types, s.unions), c.fragmentSuffix);
  }

  /** A registered name spreads the fragment that the output defines for it
      (its name followed by the configured suffix) exactly when the suffix is
      "Fragment": with any other suffix every spread of a registered type names
      a fragment other than the one the output defines for that type. */
  lemma SpreadMatchesDefinition(types: seq<Block>, unions: seq<UnionDecl>, name: string, suffix: string)
    requires name in NonRootTypeNames(types) + UnionNames(unions)
    ensures name in FragmentRegistry(types, unions)
    ensures FragmentRegistry(types, unions)[name] == name + suffix <==> suffix == "Fragment"
  {
    RegistryKeys(types, unions);
    if name + "Fragment" == name + suffix {
      assert (name + "Fragment")[|name|..] == "Fragment";
      assert (name + suffix)[|name|..] == suffix;
    }
  }

  /** Output order: every definition appears whole in the document, and each
      one ends before the next begins; the definitions are the fragments, then
      the queries, the mutations and the subscriptions. */
  lemma DocumentOrder(fragments: seq<string>, queries: seq<string>, mutations: seq<string>, subscriptions: seq<string>, i: nat, j: nat)
    requires i < j < |fragments + queries + mutations + subscriptions|
    ensures var parts := fragments + queries + mutations + subscriptions;
      var doc := Document(fragments, queries, mutations, subscriptions);
      Offset("\n\n", parts, i) + |parts[i]| < Offset("\n\n", parts, j) &&
      Offset("\n\n", parts, j) + |parts[j]| <= |doc| &&
      doc[Offset("\n\n", parts, i)..Offset("\n\n", parts, i) + |parts[i]|] == parts[i] &&
      doc[Offset("\n\n", parts, j)..Offset("\n\n", parts, j) + |parts[j]|] == parts[j]
  {
    var parts := fragments + queries + mutations + subscriptions;
    OffsetsIncrease("\n\n", parts, i, j);
    JoinPlacesPart("\n\n", parts, i);
    JoinPlacesPart("\n\n", parts, j);
  }
}

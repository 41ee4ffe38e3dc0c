# GraphQL operation extractor — a Dafny model

This project models the `GraphQLOperationExtractor` of `main.py`. It reads a
GraphQL schema and writes a companion document of client operations:

- one fragment per non-root object type, per interface and per union;
- one `query`, `mutation` or `subscription` operation per field of the root
  types `Query`, `Mutation` and `Subscription`.

The model covers four parts of the extractor:

- **The fragment-name registry** that `get_fragment_name` builds once, in the
  constructor (module `Registry`, method `Extraction.Extractor.GetFragmentName`).
- **Field resolution** (`process_fields`, module `Fields`). Each line of a
  block body becomes either the field's name, or a sub-selection spreading the
  fragment registered for the field's bare type. The bare type is the declared
  type with `[`, `]` and `!` deleted (`Blocks.Normalize`).
- **Parameter formatting** (`process_params`, module `Params`). This gives the
  variable-declaration clause and the argument-binding clause of an operation.
- **Rendering** (module `Render`) of:
  - type and interface fragments, with the order of their fields;
  - union fragments, with the fallback for an unregistered member;
  - the three operation templates;
  - the output document, which holds the fragments, then the queries, the
    mutations and the subscriptions, separated by blank lines.

The extractor object itself is `Extraction.Extractor`. It is a class with the
object's two mutable attributes: the registry `fragmentMapping`, and the side
list `fragments` that the registry loop appends to. Its methods are the
source's loops, each proved equal to a specification function in `Registry`,
`Fields` or `Render`. The properties are lemmas about those functions.

The Python string operations the extractor is built from are in module
`PyStr`: `str.strip()` over the characters for which `str.isspace()` holds,
`str.split` with a one-character separator, and `str.join`.

The input of the model is what the regular expressions of `main.py` find in the
schema text (`Blocks.Schema`), in the order they find it:

- the type blocks, the interface blocks and the union lines;
- the `(name, params, return type)` matches of the first `Query`, `Mutation`
  and `Subscription` block.

A Python exception is modelled as an error result. A field line without `:`
makes `line.split(":")[1]` raise `IndexError`, which is `Err(MissingColon(line))`
here.

Behaviour of the code a reader may not expect:

- **Registry values.** The registry maps a name to `name + "Fragment"` whatever
  the configured fragment suffix (`main.py:33`, `main.py:44`). It is not
  `name + suffix`. The fragments themselves are defined as `name + suffix`
  (`main.py:59-61`). So with any other suffix, every spread of a registered
  type names a fragment other than the one the document defines for that type
  (`Render.SpreadMatchesDefinition`).
- **Interfaces.** Interfaces are never registered, so a field whose type is an
  interface is rendered as a bare name, unless a non-root type or a union has
  the same name (`Registry.InterfaceNameKey`).
- **Parameter text.** Parameter text is not normalised: there is no
  whitespace collapsing and no comma repair. The declaration entry is `$`
  followed by the whole stripped declaration (`$id: ID!`). Empty parentheses
  `()` give `($)` and `(: $)` (`Scenarios.EmptyParentheses`).
- **Operation spacing.** The query template has no space before its `{`. The
  mutation and subscription templates have one. An operation without
  parameters is `query pingQuery{ping {...PongFragment}}`, with no
  parentheses (`Render.RenderWithoutParams`,
  `Render.NoParenthesesWithoutParams`).
- **Extraction order.** `extract` computes the queries before the fragments.
  Only fragment extraction can fail, so the result is the same. A non-root
  type or an interface whose body is blank, or has a line without `:`, fails
  the whole extraction (`Fields.BlankBodyFails`, `Render.ExtractDocumentFails`).
  The bodies of `Query`, `Mutation` and `Subscription` are never resolved.
- **The side list.** The side list `fragments` that `get_fragment_name`
  fills is never written out. Its fragments are named `TypeFragment` followed
  by the suffix, and list plain field names (`Extraction.SideFragmentHeader`).

## Model

| member | source | states |
|---|---|---|
| PyStr.StripProperties | main.py:102-103 | `strip()` keeps the contiguous middle of its input: everything it drops before and after is whitespace, and the kept text has no whitespace at either end |
| PyStr.SplitCount | main.py:98 | splitting gives one piece more than the text has separators |
| PyStr.SplitPiecesFree | main.py:194 | no piece of a split holds the separator |
| PyStr.JoinSplit | main.py:194 | joining the pieces of a split with the separator restores the text |
| PyStr.SplitJoin | main.py:196 | splitting text joined from separator-free parts gives the parts back, in order |
| Blocks.CollectOk | main.py:99-112 | an accumulating loop in which no step fails keeps every value, one per step, in step order |
| Blocks.CollectFirstErr | main.py:100-104 | an accumulating loop reports the failure of its first failing step |
| Blocks.CollectPrefixErr | main.py:100-104 | once the loop has failed, later steps do not change its outcome |
| Blocks.MapSeqIndex | main.py:124-136 | a loop that appends the image of each element gives, at position i, the image of element i |
| Blocks.MapSeqConcat | main.py:124-136 | such a loop keeps order: it distributes over concatenation |
| Blocks.NormalizeBare | main.py:105 | a bare type holds no `[`, `]` or `!` and no character its declared type lacks |
| Blocks.NormalizeConcat | main.py:105 | the deletion works character by character: it distributes over concatenation |
| Blocks.NormalizeKeeps | main.py:105 | a type without markers is kept unchanged |
| Blocks.NormalizeChar | main.py:105 | a marker character is deleted and any other is kept |
| Blocks.NormalizeIdempotent | main.py:126-127 | normalising twice is normalising once |
| Registry.RegisterTypesStep | main.py:28-41 | one type block: a root type leaves the mapping as it is, any other is mapped to its name + "Fragment" |
| Registry.RegisterUnionsStep | main.py:43-44 | one union line maps the union to its name + "Fragment" |
| Registry.RegisterTypesKeys | main.py:28-41 | after the type loop the keys are exactly the non-root type names, each mapped to itself + "Fragment" |
| Registry.RegisterUnionsKeys | main.py:43-44 | the union loop adds exactly the union names, each mapped to itself + "Fragment" |
| Registry.RegistryKeys | main.py:22-46 | registry keys are exactly the non-root type names and the union names; every value is its key + "Fragment" (the suffix plays no part) |
| Registry.RootNameKey | main.py:29 | `Query`, `Mutation` and `Subscription` are keys only if a union has that name |
| Registry.InterfaceNameKey | main.py:22-46 | a name that is neither a non-root type nor a union (an interface, say) is never a key |
| Fields.ResolveFieldFails | main.py:101-104 | a field line fails exactly when it has no `:`, and the failure names that line |
| Fields.ResolveLinesStep | main.py:100-111 | resolving one more line appends its entry, or fails with its failure |
| Fields.ResolveLinesPrefixErr | main.py:100-104 | a failure among the first lines is the failure of the whole body |
| Fields.LineResultsConcat | main.py:100 | the per-line results of two line lists are the results of each, in order |
| Fields.ResolveLinesOk | main.py:98-112 | when every line has a `:`, the result has one entry per line, entry i being the resolution of line i |
| Fields.ResolveLinesErr | main.py:98-104 | the first line without `:` is the failure of the whole body: no line is skipped |
| Fields.FieldNameWithin | main.py:102 | a field name is made of characters of its line |
| Fields.FieldResolutionSound | main.py:101-111 | an entry spreads a fragment (holds a line break) iff the line's bare type is a registry key; it is `name {\n    ...F\n  }` then, the bare field name otherwise |
| Fields.SpreadHasBreak | main.py:108 | a spread entry holds a line break |
| Fields.BlankBodyFails | main.py:98-104 | an empty or blank body has one empty line, which has no `:`: process_fields fails |
| Fields.FieldCount | main.py:98-112 | a body whose lines all have `:` gives one entry per line: line breaks of the stripped body + 1 |
| Params.ProcessParams | main.py:191-209 | empty parameter text gives two empty clauses; any other text gives two clauses that open with `(` and close with `)` |
| Params.ClauseRoundTrip | main.py:196 | entries without commas or outer whitespace are read back from their clause by splitting at `,` and stripping |
| Params.DeclEntryClean | main.py:196 | a declaration entry `$` + stripped part has no comma and no outer whitespace |
| Params.BindEntryClean | main.py:202 | a binding entry `name: $name` has no comma and no outer whitespace |
| Params.ParamsRoundTrip | main.py:194-207 | both clauses list exactly one entry per comma-separated parameter, in order: `$` + declaration, and `name: $name` |
| Params.StripPrefix | main.py:202 | stripping keeps a stripped prefix in front |
| Params.ArgNamePrefix | main.py:196-202 | the stripped text before the first `:` begins the stripped declaration |
| Params.BindingUsesDeclaredVariable | main.py:194-206 | the binding at position i passes the variable declared at position i: `name: ` followed by the start of the declaration entry, `$name` |
| Render.FragmentHeaderBegins | main.py:18 | a fragment for a name begins `fragment <name><suffix> on <name> {` |
| Render.BlockFragmentsOk | main.py:56-77 | when every kept block resolves, there is one fragment per kept block, fragment i for block i |
| Render.BlockFragmentsFail | main.py:56-77 | a kept block whose body does not resolve makes the loop fail |
| Render.KeptConcat | main.py:56-57 | skipping root types distributes over concatenation of the block list |
| Render.BlockFragmentsSkip | main.py:57 | a root type block adds nothing to the type loop |
| Render.BlockFragmentsAppend | main.py:58-65 | a kept block appends its fragment to the loop's list, or fails the loop |
| Render.BlockFragmentsErr | main.py:58-65 | a failure among the first blocks is the failure of the whole loop |
| Render.BlockFragmentsResolve | main.py:56-77 | the block loop succeeds iff every kept block resolves |
| Render.BlockFragmentsHeaded | main.py:56-77 | fragment i of the block loop is the fragment of kept block i |
| Render.UnionFragmentsStep | main.py:81-93 | one more union line appends that union's fragment |
| Render.UnionFragmentsHeaded | main.py:79-93 | one fragment per union, fragment i for union i |
| Render.SchemaFragmentsCoverage | main.py:48-95 | when all non-root types and interfaces resolve, there is exactly one fragment per non-root type, interface and union, in that order, each headed `fragment <Name><suffix> on <Name> {` |
| Render.SchemaFragmentsFail | main.py:48-95 | fragment extraction fails iff some non-root type or interface has a body that does not resolve |
| Render.KeepAll | main.py:69 | the interface loop keeps every block |
| Render.UnionMemberTarget | main.py:84 | a union member spreads member + "Fragment" when it is a non-root type or a union, and falls back to member + suffix otherwise |
| Render.OperationSelectionIff | main.py:126-134 | an operation's selection is non-empty iff the bare return type is a registry key, and then it is `{...<Type>Fragment}` |
| Render.OperationsOfFields | main.py:124-136 | one operation per root field, operation i rendering field i |
| Render.OperationsConcat | main.py:124-136 | the operations of the fields `a + b` are those of `a`, then those of `b`: field order is kept |
| Render.OperationsStep | main.py:124-136 | one more root field appends its operation |
| Render.SelectionParenFree | main.py:126-134 | with a registry built as get_fragment_name builds it, the selection adds no parentheses |
| Render.RenderWithoutParams | main.py:15-17 | a root field without parameters renders as keyword, name, suffix, then `{name <selection>}`: no clause in the signature or the call |
| Render.NoParenthesesWithoutParams | main.py:124-135 | an operation without parameters has no parentheses anywhere, when its name, suffix and return type have none |
| Render.ExtractDocumentFails | main.py:219-225 | the whole extraction fails iff a non-root type or an interface has a body that does not resolve; the operations never fail |
| Render.SpreadMatchesDefinition | main.py:41-61 | a registered name's spread names the fragment the output defines for it iff the fragment suffix is "Fragment" |
| Render.DocumentOrder | main.py:225 | every definition appears whole in the document and ends before the next begins: fragments, then queries, mutations, subscriptions |
| Extraction.ConfigDefaults | main.py:8-12 | each suffix option is taken when given and defaults to "Fragment", "Query", "Mutation" or "Subscription" otherwise |
| Extraction.SideFragmentsStep | main.py:28-40 | one type block appends its side fragment unless it is a root type |
| Extraction.SideFragmentsOfKept | main.py:28-40 | the side list holds one fragment per non-root type, in order |
| Extraction.SideFragmentHeader | main.py:30-39 | a side fragment is headed `fragment <Type>Fragment<suffix> on <Type> {` |
| Extraction.Extractor.constructor | main.py:5-20 | the options become the configuration; the registry is the one built from the type and union blocks; the side list holds one fragment per non-root type |
| Extraction.Extractor.GetFragmentName | main.py:22-46 | returns the registry of the type and union blocks, and appends the side fragments of the non-root types |
| Extraction.Extractor.ProcessLine | main.py:101-111 | the entry for one line, or the failure of a line without `:` |
| Extraction.Extractor.ProcessFields | main.py:97-112 | the loop resolves the body's lines in order and fails on the first line without `:` |
| Extraction.Extractor.RenderBlock | main.py:58-65 | the fragment of one type or interface block: its resolved fields, joined with a line break and two spaces |
| Extraction.Extractor.BlockFragmentsLoop | main.py:56-77 | the type loop, which skips root types, and the interface loop: one fragment per kept block, or the first failure |
| Extraction.Extractor.ExtractFragmentsFromSchema | main.py:48-95 | type fragments, then interface fragments, then union fragments, or the first failure |
| Extraction.Extractor.RenderField | main.py:125-135 | one root field in its kind's template, with both parameter clauses and the selection |
| Extraction.Extractor.ExtractOperations | main.py:124-136 | one operation per root field of the kind, in order |
| Extraction.Extractor.ExtractQueries | main.py:114-137 | the query operations, in field order |
| Extraction.Extractor.ExtractMutations | main.py:139-163 | the mutation operations, in field order |
| Extraction.Extractor.ExtractSubscriptions | main.py:165-189 | the subscription operations, in field order |
| Extraction.Extractor.Extract | main.py:219-225 | the document, or the failure of fragment extraction: fragments, queries, mutations and subscriptions, separated by blank lines |
| Scenarios.EmptyParentheses | main.py:191-209 | parameter text `()` gives the clauses `($)` and `(: $)` |
| Scenarios.PongRegistry | main.py:22-46 | a schema with the single type `Pong` registers `Pong` alone, as `PongFragment` |

## Left out

- Reading the schema file and writing the output file (`read_file`, `write_file`, `main.py:211-217`) are file I/O. `Extract` returns the document that would be written; the output path is not modelled.
- `run` and the `__main__` block (`main.py:227-238`) are process start-up and `print`. They are not modelled.
- The `print` inside `process_fields` (`main.py:107`) is console output and has no effect on the result. It is not modelled.
- The regular expressions are not modelled: the type, interface and union patterns (`main.py:24-27`, `main.py:50-53`, `main.py:67-68`, `main.py:80`) and the root-field patterns (`main.py:116-123` and their siblings). Their matches, in match order, are the input `Blocks.Schema`. So the non-greedy `\{(.*?)\}` body capture and the `\w+` identifiers are assumed, not proved.
- `add_typename` (`main.py:13`) is read but never used. It is not part of `Blocks.Config`.
- `Extraction.Extractor.Extract` requires `Valid()`: the registry must be the one the constructor built. The source never reassigns `fragment_mapping`, and no method of the model changes it.
- `PyStr.Split` models `str.split` with a one-character separator only, the only form the extractor uses. `PyStr.IsSpace` lists the characters of Python's `str.isspace()`. Unicode data beyond that list is not modelled.

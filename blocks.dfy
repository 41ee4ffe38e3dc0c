/** What the extractor works on: the blocks its regular expressions find in the
    schema text, its configuration, and the normalisation of a declared type. */
module Blocks {
  import opened PyStr

  /** A `type Name [implements Node] { body }` or `interface Name { body }`
      block; `body` is the text captured between the braces. */
  datatype Block = Block(name: string, body: string)

  /** A `union Name = members` line; `members` is the rest of that line. */
  datatype UnionDecl = UnionDecl(name: string, members: string)

  /** One match of the root-field pattern inside a `Query`, `Mutation` or
      `Subscription` block: the field name, the parenthesised parameter text
      (empty when the field has no parameter list) and the return type. */
  datatype RootField = RootField(name: string, params: string, returnType: string)

  /** Every block of the schema in the order the patterns find them. `types`
      holds the root types too; the root fields come from the first block of
      each root kind, and are empty when there is none. */
  datatype Schema = Schema(
    types: seq<Block>,
    interfaces: seq<Block>,
    unions: seq<UnionDecl>,
    queryFields: seq<RootField>,
    mutationFields: seq<RootField>,
    subscriptionFields: seq<RootField>)

  /** The options the extractor reads. */
  datatype Config = Config(
    fragmentSuffix: string,
    querySuffix: string,
    mutationSuffix: string,
    subscriptionSuffix: string)

  /** The defaults taken when an option is not given. */
  const DefaultConfig := Config("Fragment", "Query", "Mutation", "Subscription")

  datatype OpKind = QueryOp | MutationOp | SubscriptionOp

  /** A field line without ':' cannot be split into a name and a type. */
  datatype ExtractError = MissingColon(line: string)

  datatype Result<T> = Ok(value: T) | Err(error: ExtractError)

  /** A loop that appends the value of each step in turn and stops at the
      first step that fails, reporting that failure. */
  function Collect<T>(rs: seq<Result<T>>): Result<seq<T>>
    decreases |rs|
  {
    if rs == [] then Ok([])
    else
      match Collect(rs[..|rs| - 1])
      case Err(e) => Err(e)
      case Ok(prev) =>
        match rs[|rs| - 1]
        case Err(e) => Err(e)
        case Ok(x) => Ok(prev + [x])
  }

  /** When no step fails, the loop keeps every value, in step order. */
  lemma {:induction false} CollectOk<T>(rs: seq<Result<T>>)
    requires forall i :: 0 <= i < |rs| ==> rs[i].Ok?
    ensures Collect(rs).Ok? && |Collect(rs).value| == |rs|
    ensures forall i :: 0 <= i < |rs| ==> rs[i] == Ok(Collect(rs).value[i])
    decreases |rs|
  {
    if rs != [] {
      var init := rs[..|rs| - 1];
      CollectOk(init);
      var prev := Collect(init).value;
      var last := rs[|rs| - 1];
      assert Collect(rs) == Ok(prev + [last.value]);
      forall i | 0 <= i < |rs|
        ensures rs[i] == Ok((prev + [last.value])[i])
      {
        if i < |init| {
          assert init[i] == rs[i];
        }
      }
    }
  }

  /** The loop reports the failure of its first failing step. */
  lemma {:induction false} CollectFirstErr<T>(rs: seq<Result<T>>, k: nat)
    requires k < |rs| && rs[k].Err?
    requires forall j :: 0 <= j < k ==> rs[j].Ok?
    ensures Collect(rs) == Err(rs[k].error)
    decreases |rs|
  {
    var init := rs[..|rs| - 1];
    if k < |rs| - 1 {
      assert init[k] == rs[k];
      assert forall j :: 0 <= j < k ==> init[j] == rs[j];
      CollectFirstErr(init, k);
    } else {
      assert forall j :: 0 <= j < |init| ==> init[j] == rs[j];
      CollectOk(init);
    }
  }

  /** Any failing step makes the loop fail. */
  lemma {:induction false} CollectErr<T>(rs: seq<Result<T>>, k: nat)
    requires k < |rs| && rs[k].Err?
    ensures Collect(rs).Err?
    decreases |rs|
  {
    var init := rs[..|rs| - 1];
    if k < |rs| - 1 {
      assert init[k] == rs[k];
      CollectErr(init, k);
    }
  }

  /** One more step after a loop that has not failed. */
  lemma CollectSnoc<T>(rs: seq<Result<T>>, x: Result<T>)
    requires Collect(rs).Ok?
    ensures Collect(rs + [x]) == if x.Err? then Err(x.error) else Ok(Collect(rs).value + [x.value])
  {
    assert (rs + [x])[..|rs|] == rs;
  }

  /** Once the loop has failed, later steps do not change its outcome. */
  lemma {:induction false} CollectPrefixErr<T>(rs: seq<Result<T>>, ys: seq<Result<T>>)
    requires Collect(rs).Err?
    ensures Collect(rs + ys) == Collect(rs)
    decreases |ys|
  {
    if ys == [] {
      assert rs + ys == rs;
    } else {
      assert (rs + ys)[..|rs + ys| - 1] == rs + ys[..|ys| - 1];
      CollectPrefixErr(rs, ys[..|ys| - 1]);
    }
  }

  /** A loop that appends `f` of each element in turn. */
  function MapSeq<A, B>(f: A -> B, xs: seq<A>): (r: seq<B>)
    ensures |r| == |xs|
    decreases |xs|
  {
    if xs == [] then [] else MapSeq(f, xs[..|xs| - 1]) + [f(xs[|xs| - 1])]
  }

  /** Element `i` of the result is `f` of element `i`. */
  lemma {:induction false} MapSeqIndex<A, B>(f: A -> B, xs: seq<A>)
    ensures forall i :: 0 <= i < |xs| ==> MapSeq(f, xs)[i] == f(xs[i])
    decreases |xs|
  {
    if xs != [] {
      var init := xs[..|xs| - 1];
      MapSeqIndex(f, init);
      assert forall i :: 0 <= i < |init| ==> init[i] == xs[i];
    }
  }

  /** Mapping keeps order: it distributes over concatenation. */
  lemma {:induction false} MapSeqConcat<A, B>(f: A -> B, a: seq<A>, b: seq<A>)
    ensures MapSeq(f, a + b) == MapSeq(f, a) + MapSeq(f, b)
    decreases |b|
  {
    if b == [] {
      assert a + b == a;
    } else {
      var c := a + b;
      assert c[..|c| - 1] == a + b[..|b| - 1];
      assert c[|c| - 1] == b[|b| - 1];
      MapSeqConcat(f, a, b[..|b| - 1]);
    }
  }

  /** One more element of a prefix appends its image. */
  lemma MapSeqStep<A, B>(f: A -> B, xs: seq<A>, i: nat)
    requires i < |xs|
    ensures MapSeq(f, xs[..i + 1]) == MapSeq(f, xs[..i]) + [f(xs[i])]
  {
    assert xs[..i + 1][..i] == xs[..i];
  }

  /** The three root type names, which get operations instead of fragments. */
  predicate IsRootName(name: string)
  {
    name == "Query" || name == "Mutation" || name == "Subscription"
  }

  /** The list and non-null markers of a declared type. */
  predicate IsTypeMarker(c: char)
  {
    c == '[' || c == ']' || c == '!'
  }

  /** The bare type named by a declared type: every `[`, `]` and `!` deleted. */
  function Normalize(t: string): string
  {
    if t == [] then []
    else (if IsTypeMarker(t[0]) then [] else [t[0]]) + Normalize(t[1..])
  }

  /** No marker is left and no other character is added. */
  lemma {:induction false} NormalizeBare(t: string)
    ensures forall c :: c in Normalize(t) ==> c in t && !IsTypeMarker(c)
    decreases |t|
  {
    if t != [] {
      NormalizeBare(t[1..]);
      assert t == [t[0]] + t[1..];
    }
  }

  /** Normalisation works character by character: it distributes over
      concatenation. */
  lemma {:induction false} NormalizeConcat(a: string, b: string)
    ensures Normalize(a + b) == Normalize(a) + Normalize(b)
    decreases |a|
  {
    if a == [] {
      assert a + b == b;
    } else {
      var head: string := if IsTypeMarker(a[0]) then [] else [a[0]];
      assert (a + b)[0] == a[0];
      assert (a + b)[1..] == a[1..] + b;
      assert Normalize(a + b) == head + Normalize(a[1..] + b);
      assert Normalize(a) == head + Normalize(a[1..]);
      NormalizeConcat(a[1..], b);
    }
  }

  /** A type without markers is already bare: every other character is kept,
      in its order. */
  lemma {:induction false} NormalizeKeeps(t: string)
    requires forall c :: c in t ==> !IsTypeMarker(c)
    ensures Normalize(t) == t
    decreases |t|
  {
    if t != [] {
      assert t[0] in t;
      assert forall c :: c in t[1..] ==> c in t;
      NormalizeKeeps(t[1..]);
      assert t == [t[0]] + t[1..];
    }
  }

  /** A single marker disappears and any other character stays. */
  lemma NormalizeChar(c: char)
    ensures Normalize([c]) == if IsTypeMarker(c) then [] else [c]
  {
    assert [c][1..] == [];
  }

  /** Normalising twice is normalising once. */
  lemma NormalizeIdempotent(t: string)
    ensures Normalize(Normalize(t)) == Normalize(t)
  {
    NormalizeBare(t);
    NormalizeKeeps(Normalize(t));
  }
}

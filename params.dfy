/** Parameter formatting (`process_params`): the parenthesised parameter text of
    a root field becomes a variable-declaration clause, for the operation's
    signature, and an argument-binding clause, for the field call. */
module Params {
  import opened PyStr

  /** Python's `params[1:-1]`: the text between the first and the last character. */
  function Inner(p: string): string
  {
    if |p| >= 2 then p[1..|p| - 1] else []
  }

  /** The comma-separated declarations between the parentheses. */
  function ParamParts(p: string): seq<string>
  {
    Split(Inner(p), ',')
  }

  /** The declaration entry: `$` followed by the stripped declaration, so the
      variable keeps its declared type (`$id: ID!`). */
  function DeclEntry(part: string): string
  {
    "$" + Strip(part)
  }

  /** The argument name: the stripped text before the declaration's first ':'. */
  function ArgName(part: string): string
  {
    Strip(Split(part, ':')[0])
  }

  /** The binding entry `name: $name`. */
  function BindEntry(part: string): string
  {
    ArgName(part) + ": $" + ArgName(part)
  }

  function DeclEntries(parts: seq<string>): (r: seq<string>)
    ensures |r| == |parts|
  {
    seq(|parts|, i requires 0 <= i < |parts| => DeclEntry(parts[i]))
  }

  function BindEntries(parts: seq<string>): (r: seq<string>)
    ensures |r| == |parts|
  {
    seq(|parts|, i requires 0 <= i < |parts| => BindEntry(parts[i]))
  }

  /** `"(" + ", ".join(entries) + ")"`. */
  function Parenthesise(entries: seq<string>): string
  {
    "(" + Join(", ", entries) + ")"
  }

  /** `process_params(p)`: the declaration clause and the binding clause. Empty
      parameter text gives two empty clauses, so neither the signature nor the
      field call gets parentheses; any other text gives two parenthesised clauses. */
  function ProcessParams(p: string): (r: (string, string))
    ensures p == [] ==> r == ([], [])
    ensures p != [] ==> |r.0| >= 2 && r.0[0] == '(' && r.0[|r.0| - 1] == ')'
    ensures p != [] ==> |r.1| >= 2 && r.1[0] == '(' && r.1[|r.1| - 1] == ')'
  {
    if p != [] then
      var parts := ParamParts(p);
      (Parenthesise(DeclEntries(parts)), Parenthesise(BindEntries(parts)))
    else ([], [])
  }

  /** The pieces `", ".join(entries).split(",")` yields: every entry but the
      first keeps the space that followed its comma. */
  function CommaSpaced(entries: seq<string>): (r: seq<string>)
    ensures |r| == |entries|
  {
    seq(|entries|, i requires 0 <= i < |entries| => if i == 0 then entries[0] else [' '] + entries[i])
  }

  /** Every piece stripped. */
  function StripAll(pieces: seq<string>): (r: seq<string>)
    ensures |r| == |pieces|
  {
    seq(|pieces|, i requires 0 <= i < |pieces| => Strip(pieces[i]))
  }

  lemma {:induction false} JoinCommaSpace(entries: seq<string>)
    requires |entries| >= 1
    ensures Join(", ", entries) == Join([','], CommaSpaced(entries))
    decreases |entries|
  {
    if |entries| > 1 {
      var tail := entries[1..];
      JoinCommaSpace(tail);
      var spaced := CommaSpaced(entries);
      var spacedTail := CommaSpaced(tail);
      assert spaced[1..] == [[' '] + spacedTail[0]] + spacedTail[1..];
      JoinPrepend([' '], spacedTail, [',']);
      assert Join([','], spaced) == spaced[0] + [','] + Join([','], spaced[1..]);
    }
  }

  /** Splitting a clause's interior at ',' gives its entries back, each but
      the first after one space. */
  lemma SplitClause(entries: seq<string>)
    requires |entries| >= 1
    requires forall i :: 0 <= i < |entries| ==> ',' !in entries[i]
    ensures Split(Join(", ", entries), ',') == CommaSpaced(entries)
  {
    var spaced := CommaSpaced(entries);
    JoinCommaSpace(entries);
    forall p | p in spaced
      ensures ',' !in p
    {
      var i :| 0 <= i < |spaced| && spaced[i] == p;
    }
    SplitJoin(spaced, ',');
  }

  /** Stripping removes the space after each comma again. */
  lemma StripSpaced(entries: seq<string>)
    requires forall i :: 0 <= i < |entries| ==> Trimmed(entries[i])
    ensures StripAll(CommaSpaced(entries)) == entries
  {
    var spaced := CommaSpaced(entries);
    forall i | 0 <= i < |entries|
      ensures StripAll(spaced)[i] == entries[i]
    {
      if i == 0 {
        StripTrimmed(entries[0]);
      } else {
        StripAfterSpace(entries[i]);
      }
    }
  }

  /** Entries without commas and without whitespace at their ends can be read
      back from their clause: split at ',' and strip. */
  lemma ClauseRoundTrip(entries: seq<string>)
    requires |entries| >= 1
    requires forall i :: 0 <= i < |entries| ==> ',' !in entries[i] && Trimmed(entries[i])
    ensures StripAll(Split(Join(", ", entries), ',')) == entries
  {
    SplitClause(entries);
    StripSpaced(entries);
  }

  /** A declaration entry has no comma and no whitespace at its ends. */
  lemma DeclEntryClean(part: string)
    requires ',' !in part
    ensures ',' !in DeclEntry(part) && Trimmed(DeclEntry(part))
  {
    var s := Strip(part);
    assert Trimmed(s) && forall c :: c in s ==> c in part by {
      StripProperties(part);
    }
    assert DeclEntry(part)[|DeclEntry(part)| - 1] == if s == [] then '$' else s[|s| - 1];
  }

  /** A binding entry has no comma and no whitespace at its ends. */
  lemma BindEntryClean(part: string)
    requires ',' !in part
    ensures ',' !in BindEntry(part) && Trimmed(BindEntry(part))
  {
    var n := ArgName(part);
    assert Trimmed(n) && forall c :: c in n ==> c in Split(part, ':')[0] by {
      StripProperties(Split(part, ':')[0]);
    }
    SplitPieceWithin(part, ':', 0);
    var e := BindEntry(part);
    assert e[0] == if n == [] then ':' else n[0];
    assert e[|e| - 1] == if n == [] then '$' else n[|n| - 1];
  }

  /** Both clauses list exactly one entry per comma-separated part of the
      parameter text, in order: splitting a clause's interior at ',' and
      stripping gives back `$` + declaration, and `name: $name`. */
  lemma ParamsRoundTrip(p: string)
    requires p != []
    ensures var r := ProcessParams(p);
      StripAll(Split(r.0[1..|r.0| - 1], ',')) == DeclEntries(ParamParts(p)) &&
      StripAll(Split(r.1[1..|r.1| - 1], ',')) == BindEntries(ParamParts(p))
  {
    var parts := ParamParts(p);
    var decls := DeclEntries(parts);
    var binds := BindEntries(parts);
    SplitPiecesFree(Inner(p), ',');
    forall i | 0 <= i < |parts|
      ensures ',' !in decls[i] && Trimmed(decls[i]) && ',' !in binds[i] && Trimmed(binds[i])
    {
      assert parts[i] in parts;
      DeclEntryClean(parts[i]);
      BindEntryClean(parts[i]);
    }
    ClauseRoundTrip(decls);
    ClauseRoundTrip(binds);
    var r := ProcessParams(p);
    assert r.0[1..|r.0| - 1] == Join(", ", decls);
    assert r.1[1..|r.1| - 1] == Join(", ", binds);
  }

  /** Left-stripping text that starts with a non-blank stretch `a` strips `a`
      alone. */
  lemma {:induction false} TrimLeftAppend(a: string, z: string, k: nat)
    requires k < |a| && !IsSpace(a[k])
    ensures TrimLeft(a + z) == TrimLeft(a) + z
    decreases |a|
  {
    assert (a + z)[0] == a[0];
    if IsSpace(a[0]) {
      assert a[1..][k - 1] == a[k];
      assert (a + z)[1..] == a[1..] + z;
      TrimLeftAppend(a[1..], z, k - 1);
    }
  }

  /** Text that ends in a non-blank character (or is empty) and starts `y`
      still starts `y` with its trailing whitespace removed. */
  lemma TrimRightKeepsPrefix(u: string, y: string)
    requires |u| <= |y| && y[..|u|] == u
    requires u == [] || !IsSpace(u[|u| - 1])
    ensures |u| <= |TrimRight(y)| && TrimRight(y)[..|u|] == u
  {
    var v := TrimRight(y);
    TrimRightProperties(y);
    assert |u| > |v| ==> y[|u| - 1] == u[|u| - 1];
  }

  /** Stripping keeps a stripped prefix in front. */
  lemma StripPrefix(a: string, z: string)
    ensures |Strip(a)| <= |Strip(a + z)|
    ensures Strip(a + z)[..|Strip(a)|] == Strip(a)
  {
    if k :| 0 <= k < |a| && !IsSpace(a[k]) {
      StripPrefixNonBlank(a, z, k);
    } else {
      StripBlank(a);
    }
  }

  lemma StripPrefixNonBlank(a: string, z: string, k: nat)
    requires k < |a| && !IsSpace(a[k])
    ensures |Strip(a)| <= |Strip(a + z)|
    ensures Strip(a + z)[..|Strip(a)|] == Strip(a)
  {
    var w := TrimLeft(a);
    var u := TrimRight(w);
    assert Strip(a + z) == TrimRight(w + z) by {
      TrimLeftAppend(a, z, k);
    }
    assert Strip(a) == u;
    TrimLeftProperties(a);
    TrimRightProperties(w);
    assert (w + z)[..|u|] == u;
    TrimRightKeepsPrefix(u, w + z);
  }

  /** The first piece of a split begins the split text. */
  lemma FirstPieceBegins(s: string, sep: char)
    ensures |Split(s, sep)[0]| <= |s| && s[..|Split(s, sep)[0]|] == Split(s, sep)[0]
  {
    JoinSplit(s, sep);
    JoinPlacesPart([sep], Split(s, sep), 0);
  }

  /** The stripped text before the first ':' of a declaration begins its
      stripped whole. */
  lemma ArgNamePrefix(part: string)
    ensures |ArgName(part)| <= |Strip(part)|
    ensures Strip(part)[..|ArgName(part)|] == ArgName(part)
  {
    var a := Split(part, ':')[0];
    FirstPieceBegins(part, ':');
    var z := part[|a|..];
    assert part == a + z;
    StripPrefix(a, z);
  }

  /** Each binding passes, for the argument of that position, the variable
      declared at the same position: the binding entry is the argument name,
      ": ", then the start of the declaration entry, which is `$name`. */
  lemma BindingUsesDeclaredVariable(parts: seq<string>, i: nat)
    requires i < |parts|
    ensures |ArgName(parts[i])| + 1 <= |DeclEntries(parts)[i]|
    ensures BindEntries(parts)[i] ==
      ArgName(parts[i]) + ": " + DeclEntries(parts)[i][..|ArgName(parts[i])| + 1]
  {
    var n := ArgName(parts[i]);
    ArgNamePrefix(parts[i]);
    var d := DeclEntries(parts)[i];
    assert d == "$" + Strip(parts[i]);
    assert d[..|n| + 1] == "$" + Strip(parts[i])[..|n|];
  }
}

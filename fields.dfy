/** Field resolution (`process_fields`): each line of a block body becomes the
    field's name, or a sub-selection that spreads the fragment registered for
    the field's bare type. */
module Fields {
  import opened PyStr
  import opened Blocks

  /** The declared name of a field line: the text before its first ':' (the
      whole line when there is none), stripped. */
  function FieldName(line: string): string
  {
    Strip(Split(line, ':')[0])
  }

  /** The declared type of a field line: the text between its first and its
      second ':', stripped. */
  function FieldType(line: string): string
    requires ':' in line
  {
    SplitCount(line, ':');
    Strip(Split(line, ':')[1])
  }

  /** The entry for a field whose bare type has the fragment `fragment`. */
  function SpreadEntry(name: string, fragment: string): string
  {
    name + " {\n    ..." + fragment + "\n  }"
  }

  /** The entry `process_fields` appends for one line, or the failure of
      indexing the second piece of a line that has no ':'. */
  function ResolveField(line: string, m: map<string, string>): Result<string>
  {
    var parts := Split(line, ':');
    if |parts| < 2 then Err(MissingColon(line))
    else
      var name := Strip(parts[0]);
      var t := Normalize(Strip(parts[1]));
      if t in m then Ok(SpreadEntry(name, m[t])) else Ok(name)
  }

  /** A field line fails exactly when it has no ':', and then the failure names it. */
  lemma ResolveFieldFails(line: string, m: map<string, string>)
    ensures ResolveField(line, m).Ok? <==> ':' in line
    ensures ResolveField(line, m).Err? ==> ResolveField(line, m).error == MissingColon(line)
  {
    SplitCount(line, ':');
  }

  /** The lines `process_fields` visits: the stripped body split at '\n'. */
  function FieldLines(body: string): seq<string>
  {
    Split(Strip(body), '\n')
  }

  /** The outcome of resolving each line, in order. */
  function LineResults(lines: seq<string>, m: map<string, string>): (r: seq<Result<string>>)
    ensures |r| == |lines|
  {
    seq(|lines|, i requires 0 <= i < |lines| => ResolveField(lines[i], m))
  }

  /** `process_fields` over a list of lines, taking them in order and stopping
      at the first line that fails. */
  function ResolveLines(lines: seq<string>, m: map<string, string>): Result<seq<string>>
  {
    Collect(LineResults(lines, m))
  }

  /** Resolving one more line after a prefix that resolved. */
  lemma ResolveLinesStep(lines: seq<string>, i: nat, m: map<string, string>)
    requires i < |lines| && ResolveLines(lines[..i], m).Ok?
    ensures var x := ResolveField(lines[i], m);
      ResolveLines(lines[..i + 1], m) == if x.Err? then Err(x.error) else Ok(ResolveLines(lines[..i], m).value + [x.value])
  {
    var rs := LineResults(lines[..i], m);
    LineResultsSnoc(lines, i, m);
    CollectSnoc(rs, ResolveField(lines[i], m));
  }

  lemma LineResultsSnoc(lines: seq<string>, i: nat, m: map<string, string>)
    requires i < |lines|
    ensures LineResults(lines[..i + 1], m) == LineResults(lines[..i], m) + [ResolveField(lines[i], m)]
  {
    var l := LineResults(lines[..i + 1], m);
    var r := LineResults(lines[..i], m) + [ResolveField(lines[i], m)];
    forall j | 0 <= j < |l|
      ensures l[j] == r[j]
    {
      assert lines[..i + 1][j] == lines[j];
      if j < i {
        assert lines[..i][j] == lines[j];
      }
    }
  }

  /** A failure among the first lines is the failure of the whole body. */
  lemma ResolveLinesPrefixErr(lines: seq<string>, k: nat, m: map<string, string>)
    requires k <= |lines| && ResolveLines(lines[..k], m).Err?
    ensures ResolveLines(lines, m) == ResolveLines(lines[..k], m)
  {
    assert lines[..k] + lines[k..] == lines;
    LineResultsConcat(lines[..k], lines[k..], m);
    CollectPrefixErr(LineResults(lines[..k], m), LineResults(lines[k..], m));
  }

  lemma LineResultsConcat(a: seq<string>, b: seq<string>, m: map<string, string>)
    ensures LineResults(a + b, m) == LineResults(a, m) + LineResults(b, m)
  {
    var l := LineResults(a + b, m);
    var r := LineResults(a, m) + LineResults(b, m);
    forall i | 0 <= i < |l|
      ensures l[i] == r[i]
    {
      if i < |a| {
        assert (a + b)[i] == a[i];
      } else {
        assert (a + b)[i] == b[i - |a|];
      }
    }
  }

  /** Every line is resolved, none is dropped or merged: when every line has a
      ':' the result holds one entry per line, in source order. */
  lemma ResolveLinesOk(lines: seq<string>, m: map<string, string>)
    requires forall i :: 0 <= i < |lines| ==> ':' in lines[i]
    ensures ResolveLines(lines, m).Ok?
    ensures |ResolveLines(lines, m).value| == |lines|
    ensures forall i :: 0 <= i < |lines| ==> ResolveField(lines[i], m) == Ok(ResolveLines(lines, m).value[i])
  {
    var rs := LineResults(lines, m);
    forall i | 0 <= i < |lines|
      ensures rs[i].Ok?
    {
      ResolveFieldFails(lines[i], m);
    }
    CollectOk(rs);
  }

  /** A line without ':' is never skipped: the first such line is the failure. */
  lemma ResolveLinesErr(lines: seq<string>, m: map<string, string>, k: nat)
    requires k < |lines| && ':' !in lines[k]
    requires forall j :: 0 <= j < k ==> ':' in lines[j]
    ensures ResolveLines(lines, m) == Err(MissingColon(lines[k]))
  {
    var rs := LineResults(lines, m);
    forall j | 0 <= j < k
      ensures rs[j].Ok?
    {
      ResolveFieldFails(lines[j], m);
    }
    ResolveFieldFails(lines[k], m);
    CollectFirstErr(rs, k);
  }

  /** `process_fields(body)` with the registry `m`. */
  function ResolveFields(body: string, m: map<string, string>): Result<seq<string>>
  {
    ResolveLines(FieldLines(body), m)
  }

  /** A field name is made of characters of its line. */
  lemma FieldNameWithin(line: string)
    ensures forall c :: c in FieldName(line) ==> c in line
  {
    assert forall c :: c in FieldName(line) ==> c in Split(line, ':')[0] by {
      StripProperties(Split(line, ':')[0]);
    }
    SplitPieceWithin(line, ':', 0);
  }

  /** Field resolution is sound both ways: the entry for a line spreads a
      fragment (it is the only kind of entry with a line break) exactly when the
      line's bare type is a registry key, and is the bare field name otherwise. */
  lemma FieldResolutionSound(line: string, m: map<string, string>)
    requires ':' in line && '\n' !in line
    ensures ResolveField(line, m).Ok?
    ensures var t := Normalize(FieldType(line)); var e := ResolveField(line, m).value;
      ('\n' in e <==> t in m) &&
      (t in m ==> e == SpreadEntry(FieldName(line), m[t])) &&
      (t !in m ==> e == FieldName(line))
  {
    var t := Normalize(FieldType(line));
    var name := FieldName(line);
    ResolveFieldFails(line, m);
    if t in m {
      SpreadHasBreak(name, m[t]);
    } else {
      FieldNameWithin(line);
    }
  }

  /** A spread entry always holds a line break. */
  lemma SpreadHasBreak(name: string, fragment: string)
    ensures '\n' in SpreadEntry(name, fragment)
  {
    assert SpreadEntry(name, fragment)[|name| + 2] == '\n';
  }

  /** A body that is empty or only whitespace has one empty line, and that line
      has no ':': such a block makes `process_fields` fail. */
  lemma BlankBodyFails(body: string, m: map<string, string>)
    requires forall i :: 0 <= i < |body| ==> IsSpace(body[i])
    ensures ResolveFields(body, m) == Err(MissingColon([]))
  {
    StripBlank(body);
    var lines := FieldLines(body);
    assert lines == [[]];
    assert Split([], ':') == [[]];
    ResolveLinesErr(lines, m, 0);
  }

  /** A body whose lines all have a ':' resolves to one entry per line, so the
      number of entries is one more than the line breaks of the stripped body. */
  lemma FieldCount(body: string, m: map<string, string>)
    requires forall l :: l in FieldLines(body) ==> ':' in l
    ensures ResolveFields(body, m).Ok?
    ensures |ResolveFields(body, m).value| == Count(Strip(body), '\n') + 1
  {
    var lines := FieldLines(body);
    assert forall i :: 0 <= i < |lines| ==> lines[i] in lines;
    ResolveLinesOk(lines, m);
    SplitCount(Strip(body), '\n');
  }
}

/** Splicing import-table text into the preprocessor's output.

    `SpliceImports` is the loop of `parse_with_unconfigured_query` as written:
    every matched occurrence rebuilds the result from the pristine processed
    text, so only the last matched occurrence survives (`SpliceAsWritten`).
    `SpliceForward` is the single forward pass that substitutes every matched
    occurrence; it agrees with the code when at most one occurrence matches. */
module ImportSplice {
  import opened Types

  /** Every `split_at` of the loop stays in bounds: a matched occurrence's
      inclusive end lies inside the processed text (its start is at most its
      end by the `TextRange` type). */
  predicate SpliceDefined(processed: Text, occs: seq<ImportOccurrence>, imports: map<string, Text>)
  {
    forall i :: 0 <= i < |occs| && occs[i].identifier in imports ==> occs[i].range.end + 1 <= |processed|
  }

  /** `processed[..start] + source + processed[end + 1..]`: the range end is inclusive. */
  function Replace(processed: Text, range: TextRange, source: Text): Text
    requires range.end + 1 <= |processed|
  {
    processed[..range.start] + source + processed[range.end + 1..]
  }

  /** The index of the last occurrence whose key is in the table, if any. */
  function LastMatch(occs: seq<ImportOccurrence>, imports: map<string, Text>): (r: Option<nat>)
    ensures r.Some? ==> r.value < |occs| && occs[r.value].identifier in imports
    ensures r.Some? ==> forall j :: r.value < j < |occs| ==> occs[j].identifier !in imports
    ensures r.None? <==> forall j :: 0 <= j < |occs| ==> occs[j].identifier !in imports
    decreases |occs|
  {
    if occs == [] then None
    else if occs[|occs| - 1].identifier in imports then Some(|occs| - 1)
    else LastMatch(occs[..|occs| - 1], imports)
  }

  /** What the loop computes: the processed text with the last matched
      occurrence's range replaced by its table entry, or unchanged. */
  function SpliceAsWritten(processed: Text, occs: seq<ImportOccurrence>, imports: map<string, Text>): Text
    requires SpliceDefined(processed, occs, imports)
  {
    match LastMatch(occs, imports)
    case None => processed
    case Some(k) => Replace(processed, occs[k].range, imports[occs[k].identifier])
  }

  /** The import-splice loop: for each occurrence in list order whose key is
      in the table, rebuild the result from the pristine processed text. */
  method SpliceImports(processedSource: Text, fileToImport: seq<ImportOccurrence>, customImports: map<string, Text>)
    returns (modifiedSource: Text)
    requires SpliceDefined(processedSource, fileToImport, customImports)
    ensures modifiedSource == SpliceAsWritten(processedSource, fileToImport, customImports)
  {
    modifiedSource := processedSource;
    for i := 0 to |fileToImport|
      invariant SpliceDefined(processedSource, fileToImport[..i], customImports)
      invariant modifiedSource == SpliceAsWritten(processedSource, fileToImport[..i], customImports)
    {
      var occurrence := fileToImport[i];
      if occurrence.identifier in customImports {
        var source := customImports[occurrence.identifier];
        var startIndex, endIndex := occurrence.range.start, occurrence.range.end;
        var pre, post := processedSource[..startIndex], processedSource[startIndex..];
        var end := post[1 + endIndex - startIndex..];
        modifiedSource := pre + source + end;
      }
      assert fileToImport[..i + 1][..i] == fileToImport[..i];
    }
    assert fileToImport[..|fileToImport|] == fileToImport;
  }

  /** No occurrence names a key of the table: the text is left unchanged. */
  lemma SpliceNoMatch(processed: Text, occs: seq<ImportOccurrence>, imports: map<string, Text>)
    requires forall j :: 0 <= j < |occs| ==> occs[j].identifier !in imports
    ensures SpliceDefined(processed, occs, imports)
    ensures SpliceAsWritten(processed, occs, imports) == processed
  {
  }

  /** With `k` the last matched occurrence, the result is the processed text
      with the inclusive range `[start, end]` of `k` replaced by its entry,
      so `end - start + 1` bytes are removed. */
  lemma SpliceLastMatch(processed: Text, occs: seq<ImportOccurrence>, imports: map<string, Text>, k: nat)
    requires SpliceDefined(processed, occs, imports)
    requires k < |occs| && occs[k].identifier in imports
    requires forall j :: k < j < |occs| ==> occs[j].identifier !in imports
    ensures var s, e, source := occs[k].range.start, occs[k].range.end, imports[occs[k].identifier];
      && SpliceAsWritten(processed, occs, imports) == processed[..s] + source + processed[e + 1..]
      && |SpliceAsWritten(processed, occs, imports)| == |processed| - (e - s + 1) + |source|
  {
  }

  /** Appending occurrences that hold a match moves the last match into them. */
  lemma {:induction false} LastMatchAppend(earlier: seq<ImportOccurrence>, later: seq<ImportOccurrence>, imports: map<string, Text>)
    requires LastMatch(later, imports).Some?
    ensures LastMatch(earlier + later, imports) == Some(|earlier| + LastMatch(later, imports).value)
    decreases |later|
  {
    var all, init := earlier + later, later[..|later| - 1];
    assert all[|all| - 1] == later[|later| - 1];
    assert all[..|all| - 1] == earlier + init;
    if later[|later| - 1].identifier !in imports {
      assert LastMatch(later, imports) == LastMatch(init, imports);
      assert LastMatch(all, imports) == LastMatch(earlier + init, imports);
      LastMatchAppend(earlier, init, imports);
    }
  }

  /** Earlier matched occurrences leave no trace: a prefix of the list does
      not matter once the rest of the list holds a match. */
  lemma EarlierMatchesLeaveNoTrace(processed: Text, earlier: seq<ImportOccurrence>, later: seq<ImportOccurrence>,
                                   imports: map<string, Text>)
    requires SpliceDefined(processed, earlier + later, imports)
    requires exists j :: 0 <= j < |later| && later[j].identifier in imports
    ensures SpliceDefined(processed, later, imports)
    ensures SpliceAsWritten(processed, earlier + later, imports) == SpliceAsWritten(processed, later, imports)
  {
    var all := earlier + later;
    forall j | 0 <= j < |later| && later[j].identifier in imports
      ensures later[j].range.end + 1 <= |processed|
    {
      assert all[|earlier| + j] == later[j];
    }
    var k := LastMatch(later, imports).value;
    LastMatchAppend(earlier, later, imports);
    assert all[|earlier| + k] == later[k];
  }

  /** Table entries agree on every key the occurrences name: the splice is
      the same, so entries no occurrence names never affect it. */
  lemma UnnamedEntriesIrrelevant(processed: Text, occs: seq<ImportOccurrence>, imports: map<string, Text>,
                                 other: map<string, Text>)
    requires SpliceDefined(processed, occs, imports)
    requires forall j :: 0 <= j < |occs| ==>
      (occs[j].identifier in imports <==> occs[j].identifier in other)
    requires forall j :: 0 <= j < |occs| && occs[j].identifier in imports ==>
      imports[occs[j].identifier] == other[occs[j].identifier]
    ensures SpliceDefined(processed, occs, other)
    ensures SpliceAsWritten(processed, occs, imports) == SpliceAsWritten(processed, occs, other)
  {
  }

  // The single forward pass

  /** The order a correct splice relies on: matched occurrences come in
      increasing position, each starting at or after `from` (the byte after
      the previous matched range) and ending inside `n` bytes. */
  predicate OrderedFrom(occs: seq<ImportOccurrence>, imports: map<string, Text>, from: nat, n: nat)
    decreases |occs|
  {
    from <= n &&
    if occs == [] then true
    else if occs[0].identifier in imports then
      from <= occs[0].range.start && occs[0].range.end + 1 <= n &&
      OrderedFrom(occs[1..], imports, occs[0].range.end + 1, n)
    else OrderedFrom(occs[1..], imports, from, n)
  }

  /** Copy the untouched spans of `processed[from..]` and substitute every
      matched occurrence, in one pass over the pristine text. */
  function SpliceForwardFrom(processed: Text, occs: seq<ImportOccurrence>, imports: map<string, Text>, from: nat): Text
    requires OrderedFrom(occs, imports, from, |processed|)
    decreases |occs|
  {
    if occs == [] then processed[from..]
    else if occs[0].identifier in imports then
      processed[from..occs[0].range.start] + imports[occs[0].identifier]
        + SpliceForwardFrom(processed, occs[1..], imports, occs[0].range.end + 1)
    else SpliceForwardFrom(processed, occs[1..], imports, from)
  }

  function SpliceForward(processed: Text, occs: seq<ImportOccurrence>, imports: map<string, Text>): Text
    requires OrderedFrom(occs, imports, 0, |processed|)
  {
    SpliceForwardFrom(processed, occs, imports, 0)
  }

  /** The other safe strategy: apply the substitutions to one buffer from the
      last occurrence back to the first, so that no applied substitution
      moves a range still to be applied. Bytes before `from` are untouched. */
  function SpliceDescending(processed: Text, occs: seq<ImportOccurrence>, imports: map<string, Text>, from: nat): (r: Text)
    requires OrderedFrom(occs, imports, from, |processed|)
    ensures from <= |r| && r[..from] == processed[..from]
    decreases |occs|
  {
    if occs == [] then processed
    else if occs[0].identifier in imports then
      var rest := SpliceDescending(processed, occs[1..], imports, occs[0].range.end + 1);
      assert rest[..from] == rest[..occs[0].range.end + 1][..from];
      Replace(rest, occs[0].range, imports[occs[0].identifier])
    else SpliceDescending(processed, occs[1..], imports, from)
  }

  /** The forward pass and the descending in-place application produce the
      same text. */
  lemma {:induction false} ForwardIsDescending(processed: Text, occs: seq<ImportOccurrence>, imports: map<string, Text>, from: nat)
    requires OrderedFrom(occs, imports, from, |processed|)
    ensures SpliceDescending(processed, occs, imports, from) == processed[..from] + SpliceForwardFrom(processed, occs, imports, from)
    decreases |occs|
  {
    if occs == [] {
      assert processed == processed[..from] + processed[from..];
    } else if occs[0].identifier in imports {
      var e := occs[0].range.end;
      ForwardIsDescending(processed, occs[1..], imports, e + 1);
      ReplaceAfterPrefix(processed, SpliceForwardFrom(processed, occs[1..], imports, e + 1),
                         occs[0].range, imports[occs[0].identifier], from);
    } else {
      ForwardIsDescending(processed, occs[1..], imports, from);
    }
  }

  /** Replacing a range of a buffer whose first `end + 1` bytes are still the
      pristine text gives the pristine bytes up to the range, the substitute,
      then the rest of the buffer. */
  lemma ReplaceAfterPrefix(processed: Text, tail: Text, range: TextRange, source: Text, from: nat)
    requires from <= range.start && range.end + 1 <= |processed|
    ensures Replace(processed[..range.end + 1] + tail, range, source)
         == processed[..from] + (processed[from..range.start] + source + tail)
  {
    var buffer := processed[..range.end + 1] + tail;
    assert buffer[..range.start] == processed[..from] + processed[from..range.start];
    assert buffer[range.end + 1..] == tail;
  }

  /** With no matched occurrence the forward pass copies the text. */
  lemma {:induction false} ForwardNoMatch(processed: Text, occs: seq<ImportOccurrence>, imports: map<string, Text>, from: nat)
    requires from <= |processed|
    requires forall j :: 0 <= j < |occs| ==> occs[j].identifier !in imports
    ensures OrderedFrom(occs, imports, from, |processed|)
    ensures SpliceForwardFrom(processed, occs, imports, from) == processed[from..]
    decreases |occs|
  {
    if occs != [] {
      ForwardNoMatch(processed, occs[1..], imports, from);
    }
  }

  /** With exactly one matched occurrence `k` the forward pass replaces its range. */
  lemma {:induction false} ForwardSingleMatch(processed: Text, occs: seq<ImportOccurrence>, imports: map<string, Text>,
                                              k: nat, from: nat)
    requires k < |occs| && occs[k].identifier in imports
    requires forall j :: 0 <= j < |occs| && j != k ==> occs[j].identifier !in imports
    requires from <= occs[k].range.start && occs[k].range.end + 1 <= |processed|
    ensures OrderedFrom(occs, imports, from, |processed|)
    ensures SpliceForwardFrom(processed, occs, imports, from)
         == processed[from..occs[k].range.start] + imports[occs[k].identifier] + processed[occs[k].range.end + 1..]
    decreases |occs|
  {
    if k == 0 {
      ForwardNoMatch(processed, occs[1..], imports, occs[0].range.end + 1);
    } else {
      ForwardSingleMatch(processed, occs[1..], imports, k - 1, from);
    }
  }

  /** At most one occurrence names a key of the table. */
  predicate AtMostOneMatch(occs: seq<ImportOccurrence>, imports: map<string, Text>)
  {
    forall i, j :: 0 <= i < j < |occs| && occs[i].identifier in imports ==> occs[j].identifier !in imports
  }

  /** The code as written is correct when at most one occurrence matches:
      it then agrees with the forward pass. */
  lemma AsWrittenAgreesWithForward(processed: Text, occs: seq<ImportOccurrence>, imports: map<string, Text>)
    requires SpliceDefined(processed, occs, imports)
    requires AtMostOneMatch(occs, imports)
    ensures OrderedFrom(occs, imports, 0, |processed|)
    ensures SpliceAsWritten(processed, occs, imports) == SpliceForward(processed, occs, imports)
  {
    match LastMatch(occs, imports)
    case None =>
      ForwardNoMatch(processed, occs, imports, 0);
    case Some(k) =>
      ForwardSingleMatch(processed, occs, imports, k, 0);
  }

  /** Two matched occurrences: the code keeps only the second substitution
      and leaves the first directive's text in place, where the forward pass
      substitutes both. */
  lemma LastMatchWins()
    ensures var processed: Text := [97, 98];
      var occs := [ImportOccurrence(Span(0, 0), "x"), ImportOccurrence(Span(1, 1), "y")];
      var imports: map<string, Text> := map["x" := [88], "y" := [89]];
      && SpliceDefined(processed, occs, imports)
      && OrderedFrom(occs, imports, 0, |processed|)
      && SpliceAsWritten(processed, occs, imports) == [97, 89]
      && SpliceForward(processed, occs, imports) == [88, 89]
  {
    var processed: Text := [97, 98];
    var occs := [ImportOccurrence(Span(0, 0), "x"), ImportOccurrence(Span(1, 1), "y")];
    var imports: map<string, Text> := map["x" := [88], "y" := [89]];
    assert occs[1..] == [occs[1]];
    assert OrderedFrom(occs[1..][1..], imports, 2, 2);
    assert LastMatch(occs, imports) == Some(1);
  }
}

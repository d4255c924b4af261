/** What the shader preprocessor reports, and how `parse_with_unconfigured_query`
    collects it. The preprocessor itself (its directive grammar and elision
    rules) is not modelled: it is a parameter of the queries, and what it
    yields is the processed text together with the callbacks it made, in call
    order. */
module ShaderProcessor {
  import opened Types

  /** One callback made by the preprocessor. */
  datatype Event =
    | Elided(span: Span, def: string)           // the unconfigured-code callback: range and guarding define
    | ImportAt(span: Span, identifier: string)  // the import callback: range and import key

  /** The processed text and the callbacks made while producing it. */
  datatype Processed = Processed(text: Text, events: seq<Event>)

  /** Every reported range can be turned into a `TextRange` (start <= end). */
  predicate RangesValid(events: seq<Event>)
  {
    forall i :: 0 <= i < |events| ==> events[i].span.start <= events[i].span.end
  }

  /** The `unconfigured` list: one entry per unconfigured-code callback, in
      call order, with range and define copied. */
  function Unconfigured(events: seq<Event>): seq<UnconfiguredCode>
    requires RangesValid(events)
    decreases |events|
  {
    if events == [] then []
    else
      var init := Unconfigured(events[..|events| - 1]);
      match events[|events| - 1]
      case Elided(span, def) => init + [UnconfiguredCode(span, def)]
      case ImportAt(_, _) => init
  }

  /** The `file_to_import` list: one entry per import callback, in call
      order, with range and identifier copied. */
  function Occurrences(events: seq<Event>): seq<ImportOccurrence>
    requires RangesValid(events)
    decreases |events|
  {
    if events == [] then []
    else
      var init := Occurrences(events[..|events| - 1]);
      match events[|events| - 1]
      case Elided(_, _) => init
      case ImportAt(span, identifier) => init + [ImportOccurrence(span, identifier)]
  }

  /** The two closures passed to the preprocessor, each pushing onto its
      own vector as the callbacks arrive. */
  method CollectCallbacks(events: seq<Event>) returns (unconfigured: seq<UnconfiguredCode>, fileToImport: seq<ImportOccurrence>)
    requires RangesValid(events)
    ensures unconfigured == Unconfigured(events)
    ensures fileToImport == Occurrences(events)
  {
    unconfigured, fileToImport := [], [];
    for i := 0 to |events|
      invariant RangesValid(events[..i])
      invariant unconfigured == Unconfigured(events[..i])
      invariant fileToImport == Occurrences(events[..i])
    {
      assert events[..i + 1][..i] == events[..i];
      match events[i]
      case Elided(span, def) =>
        unconfigured := unconfigured + [UnconfiguredCode(span, def)];
      case ImportAt(span, identifier) =>
        fileToImport := fileToImport + [ImportOccurrence(span, identifier)];
    }
    assert events[..|events|] == events;
  }

  /** Call order is kept: the entries of consecutive callback runs are
      concatenated in the same order. */
  lemma {:induction false} UnconfiguredAppend(a: seq<Event>, b: seq<Event>)
    requires RangesValid(a) && RangesValid(b)
    ensures RangesValid(a + b)
    ensures Unconfigured(a + b) == Unconfigured(a) + Unconfigured(b)
    decreases |b|
  {
    assert forall i :: |a| <= i < |a + b| ==> (a + b)[i] == b[i - |a|];
    if b == [] {
      assert a + b == a;
    } else {
      var b' := b[..|b| - 1];
      assert (a + b)[..|a + b| - 1] == a + b';
      assert (a + b)[|a + b| - 1] == b[|b| - 1];
      UnconfiguredAppend(a, b');
    }
  }

  lemma {:induction false} OccurrencesAppend(a: seq<Event>, b: seq<Event>)
    requires RangesValid(a) && RangesValid(b)
    ensures RangesValid(a + b)
    ensures Occurrences(a + b) == Occurrences(a) + Occurrences(b)
    decreases |b|
  {
    assert forall i :: |a| <= i < |a + b| ==> (a + b)[i] == b[i - |a|];
    if b == [] {
      assert a + b == a;
    } else {
      var b' := b[..|b| - 1];
      assert (a + b)[..|a + b| - 1] == a + b';
      assert (a + b)[|a + b| - 1] == b[|b| - 1];
      OccurrencesAppend(a, b');
    }
  }

  /** An entry is in the `unconfigured` list exactly when the preprocessor
      reported its range and define through the unconfigured-code callback. */
  lemma {:induction false} UnconfiguredExactly(events: seq<Event>)
    requires RangesValid(events)
    ensures forall u :: u in Unconfigured(events) <==> Elided(u.range, u.def) in events
    decreases |events|
  {
    if events != [] {
      var init := events[..|events| - 1];
      UnconfiguredExactly(init);
      assert events == init + [events[|events| - 1]];
    }
  }

  /** An entry is in the `file_to_import` list exactly when the preprocessor
      reported its range and identifier through the import callback. */
  lemma {:induction false} OccurrencesExactly(events: seq<Event>)
    requires RangesValid(events)
    ensures forall o :: o in Occurrences(events) <==> ImportAt(o.range, o.identifier) in events
    decreases |events|
  {
    if events != [] {
      var init := events[..|events| - 1];
      OccurrencesExactly(init);
      assert events == init + [events[|events| - 1]];
    }
  }
}

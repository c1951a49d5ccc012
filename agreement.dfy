/**
 * How the three converters fit together through the shared context key:
 * a PO catalog built from one reference file converts back to the values the
 * forward converter chose, a template converts back to the reference file
 * itself, and the template and the PO catalog carry the same
 * (context, original) pairs.
 */
module Agreement {
  import opened Strings
  import opened Sorting
  import opened Outcomes
  import opened Catalog
  import opened Identity
  import opened Files
  import opened ToPo
  import opened ToProperties
  import opened ToPot

  /**
   * The value a key gets after a forward and a backward conversion: the
   * forward candidate when it exists, differs from the reference and is not
   * blank, and the reference string otherwise.
   */
  function RoundTripValue(candidate: Option<string>, reference: string): string {
    if candidate.Some? && candidate.value != reference && !Blank(candidate.value) then candidate.value else reference
  }

  /** Within one file without repeated keys, the forward insertions have distinct pairs. */
  lemma ForwardPlanFresh(moduleName: string, file: string, reference: Properties,
                         localeProps: Properties, originalProps: Properties)
    requires UniqueKeys(reference)
    ensures Fresh([], FilePlan(moduleName, file, reference, localeProps, originalProps))
  {
    var plan := FilePlan(moduleName, file, reference, localeProps, originalProps);
    forall i, j | 0 <= i < j < |plan| ensures plan[i].context != plan[j].context {
      if plan[i].context == plan[j].context {
        ContextKeyInjective(moduleName, file, reference[i].0, reference[j].0);
        assert false;
      }
    }
  }

  /**
   * Converting one reference file to PO and back: each key gets the forward
   * candidate when that was non-blank and differed from the reference
   * string, and the reference string otherwise.
   */
  lemma ForwardThenBackward(moduleName: string, file: string, reference: Properties,
                            localeProps: Properties, originalProps: Properties, i: nat)
    requires UniqueKeys(reference) && i < |reference|
    ensures var entries := InsertAll([], FilePlan(moduleName, file, reference, localeProps, originalProps));
      ResolvedProperties(entries, moduleName, file, reference)[i]
        == (reference[i].0, RoundTripValue(Candidate(localeProps, originalProps, reference[i].0), reference[i].1))
  {
    var plan := FilePlan(moduleName, file, reference, localeProps, originalProps);
    var entries := InsertAll([], plan);
    ResolvedPropertiesAt(entries, moduleName, file, reference, i);
    ForwardPlanFresh(moduleName, file, reference, localeProps, originalProps);
    InsertAllFresh([], plan);
    assert entries == NewEntries(plan);
    InsertAllKeepsUniquePairs([], plan);
    NewEntriesAt(plan, i);
    FindUnique(entries, i);
    var context := ContextKey(moduleName, file, reference[i].0);
    assert Find(entries, context, reference[i].1) == Some(entries[i]);
    var t := ForwardTranslation(Candidate(localeProps, originalProps, reference[i].0), reference[i].1);
    assert Translated(entries, context, reference[i].1) == t;
    if t == "" {
      assert Blank(t);
    }
  }

  /**
   * The locale file is rewritten after the round trip exactly when some key
   * has a non-blank candidate that differs from its reference string;
   * otherwise the locale file is removed, or stays absent.
   */
  lemma ForwardThenBackwardRewrites(moduleName: string, file: string, reference: Properties,
                                    localeProps: Properties, originalProps: Properties)
    requires UniqueKeys(reference)
    ensures var entries := InsertAll([], FilePlan(moduleName, file, reference, localeProps, originalProps));
      var rewritten := !SameValues(ResolvedProperties(entries, moduleName, file, reference), reference);
      rewritten <==> exists k :: 0 <= k < |reference| && RoundTripValue(Candidate(localeProps, originalProps, reference[k].0), reference[k].1) != reference[k].1
  {
    var entries := InsertAll([], FilePlan(moduleName, file, reference, localeProps, originalProps));
    var resolved := ResolvedProperties(entries, moduleName, file, reference);
    forall k | 0 <= k < |reference|
      ensures resolved[k].1 == RoundTripValue(Candidate(localeProps, originalProps, reference[k].0), reference[k].1)
    {
      ForwardThenBackward(moduleName, file, reference, localeProps, originalProps, k);
    }
  }

  /** Inserting only empty translations into entries that have none keeps every translation empty. */
  lemma {:induction false} InsertAllUntranslated(es: seq<Entry>, ins: seq<Insertion>)
    requires forall k :: 0 <= k < |es| ==> es[k].translation == ""
    requires forall k :: 0 <= k < |ins| ==> ins[k].translation == ""
    ensures forall k :: 0 <= k < |InsertAll(es, ins)| ==> InsertAll(es, ins)[k].translation == ""
    decreases |ins|
  {
    if ins != [] {
      var next := Put(es, ins[0]);
      forall k | 0 <= k < |next| ensures next[k].translation == "" {
        if k < |es| && !Keyed(es[k], ins[0].context, ins[0].original) {
          PutKeepsOtherEntries(es, ins[0], k);
        }
      }
      assert forall k :: 0 <= k < |ins[1..]| ==> ins[1..][k] == ins[k + 1];
      InsertAllUntranslated(next, ins[1..]);
    }
  }

  /** Every entry of a template catalog has an empty translation. */
  lemma TemplateCatalogUntranslated(props: map<string, PropertyFile>, main: string, moduleName: string, files: seq<string>)
    requires TemplatePlanAll(props, main, moduleName, files).Ok?
    ensures var entries := InsertAll([], TemplatePlanAll(props, main, moduleName, files).value);
      forall k :: 0 <= k < |entries| ==> entries[k].translation == ""
  {
    var plan := TemplatePlanAll(props, main, moduleName, files).value;
    forall k | 0 <= k < |plan| ensures plan[k].translation == "" {
      TemplatePlanAllUntranslated(props, main, moduleName, files, k);
    }
    InsertAllUntranslated([], plan);
  }

  /**
   * Converting back from a catalog without translations, such as a template
   * saved as a PO file, leaves every value at its reference string, so the
   * locale file is removed, or stays absent, and never written.
   */
  lemma UntranslatedConvertsToReference(entries: seq<Entry>, moduleName: string, file: string, reference: Properties)
    requires forall k :: 0 <= k < |entries| ==> entries[k].translation == ""
    ensures ResolvedProperties(entries, moduleName, file, reference) == reference
    ensures SameValues(ResolvedProperties(entries, moduleName, file, reference), reference)
  {
    var resolved := ResolvedProperties(entries, moduleName, file, reference);
    forall k | 0 <= k < |reference| ensures resolved[k] == reference[k] {
      ResolvedPropertiesAt(entries, moduleName, file, reference, k);
      var context := ContextKey(moduleName, file, reference[k].0);
      var found := Find(entries, context, reference[k].1);
      if found.Some? {
        var j :| 0 <= j < |entries| && entries[j] == found.value;
      }
      assert Blank(Translated(entries, context, reference[k].1));
    }
  }

  /** Helper: the (context, original) pair of an insertion. */
  function PairOf(ins: Insertion): (string, string) {
    (ins.context, ins.original)
  }

  /**
   * The template and the PO catalog of one reference file carry the same
   * (context, original) pairs: only their order differs.
   */
  lemma TemplateMatchesForward(moduleName: string, file: string, reference: Properties,
                               localeProps: Properties, originalProps: Properties, pair: (string, string))
    ensures (exists i :: 0 <= i < |reference| && PairOf(TemplatePlan(moduleName, file, reference)[i]) == pair)
        <==> (exists i :: 0 <= i < |reference| && PairOf(FilePlan(moduleName, file, reference, localeProps, originalProps)[i]) == pair)
  {
    var template := TemplatePlan(moduleName, file, reference);
    var forward := FilePlan(moduleName, file, reference, localeProps, originalProps);
    var sorted := KeySort(reference);
    KeySortSpec(reference);
    if i :| 0 <= i < |reference| && PairOf(template[i]) == pair {
      TemplatePlanAt(moduleName, file, reference, i);
      assert sorted[i] in multiset(sorted);
      var k :| 0 <= k < |reference| && reference[k] == sorted[i];
      assert PairOf(forward[k]) == pair;
    }
    if k :| 0 <= k < |reference| && PairOf(forward[k]) == pair {
      assert reference[k] in multiset(sorted);
      var i :| 0 <= i < |sorted| && sorted[i] == reference[k];
      TemplatePlanAt(moduleName, file, reference, i);
      assert PairOf(template[i]) == pair;
    }
  }
}

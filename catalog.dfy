/**
 * A gettext catalog as the commands use it: an ordered collection of entries,
 * each found by the pair (context, original string), plus header lines.
 * `Put` is the sequence `insert(ctx, original)`, `addReference(ctx)`,
 * `setTranslation(t)` that every converter performs for one property key.
 */
module Catalog {
  import opened Strings
  import opened Outcomes

  datatype Entry = Entry(context: string, original: string, translation: string, references: seq<string>)

  /** What a converter inserts for one property key. */
  datatype Insertion = Insertion(context: string, original: string, translation: string)

  datatype Catalog = Catalog(headers: seq<(string, string)>, entries: seq<Entry>)

  predicate Keyed(e: Entry, context: string, original: string) {
    e.context == context && e.original == original
  }

  /** No two entries share their (context, original) pair. */
  ghost predicate UniquePairs(es: seq<Entry>) {
    forall i, j :: 0 <= i < j < |es| ==> !Keyed(es[j], es[i].context, es[i].original)
  }

  /** Position of the entry with this pair, or -1 when there is none. */
  function IndexOf(es: seq<Entry>, context: string, original: string): (r: int)
    ensures -1 <= r < |es|
    ensures r >= 0 ==> Keyed(es[r], context, original)
    ensures r >= 0 ==> forall i :: 0 <= i < r ==> !Keyed(es[i], context, original)
    ensures r == -1 <==> forall i :: 0 <= i < |es| ==> !Keyed(es[i], context, original)
    decreases |es|
  {
    if es == [] then -1
    else if Keyed(es[0], context, original) then 0
    else
      var k := IndexOf(es[1..], context, original);
      if k == -1 then -1 else k + 1
  }

  /** `Translations::find`: the entry with this pair, if any. */
  function Find(es: seq<Entry>, context: string, original: string): (r: Option<Entry>)
    ensures r.Some? ==> r.value in es && Keyed(r.value, context, original)
  {
    var k := IndexOf(es, context, original);
    if k < 0 then None else Some(es[k])
  }

  /** Find fails exactly when no entry carries the pair. */
  lemma FindNoneIff(es: seq<Entry>, context: string, original: string)
    ensures Find(es, context, original).None? <==> forall i :: 0 <= i < |es| ==> !Keyed(es[i], context, original)
  {
  }

  /** In a catalog without duplicate pairs, Find returns the one entry with that pair. */
  lemma FindUnique(es: seq<Entry>, i: nat)
    requires UniquePairs(es) && i < |es|
    ensures Find(es, es[i].context, es[i].original) == Some(es[i])
  {
    var k := IndexOf(es, es[i].context, es[i].original);
  }

  function AddReference(refs: seq<string>, ref: string): (r: seq<string>)
    ensures ref in r && forall x :: x in refs ==> x in r
    ensures ref in refs ==> r == refs
    ensures ref !in refs ==> r == refs + [ref]
  {
    if ref in refs then refs else refs + [ref]
  }

  /**
   * Inserts one key: a new pair is appended with its own context as its only
   * reference; an existing pair keeps its place, gains the reference and takes
   * the new translation.
   */
  function Put(es: seq<Entry>, ins: Insertion): (r: seq<Entry>)
    ensures Find(es, ins.context, ins.original).None? ==> r == es + [Entry(ins.context, ins.original, ins.translation, [ins.context])]
    ensures Find(es, ins.context, ins.original).Some? ==>
      var k := IndexOf(es, ins.context, ins.original);
      && |r| == |es|
      && r[k] == es[k].(translation := ins.translation, references := AddReference(es[k].references, ins.context))
      && forall i :: 0 <= i < |es| && i != k ==> r[i] == es[i]
    ensures |r| == |es| || |r| == |es| + 1
  {
    var k := IndexOf(es, ins.context, ins.original);
    if k < 0 then
      var r := es + [Entry(ins.context, ins.original, ins.translation, [ins.context])];
      assert Keyed(r[|es|], ins.context, ins.original);
      r
    else
      var e := es[k];
      var r := es[k := e.(translation := ins.translation, references := AddReference(e.references, ins.context))];
      r
  }

  /**
   * After Put the pair is found, with the inserted translation and its own
   * context among its references.
   */
  lemma PutFinds(es: seq<Entry>, ins: Insertion)
    ensures Find(Put(es, ins), ins.context, ins.original).Some?
    ensures Find(Put(es, ins), ins.context, ins.original).value.translation == ins.translation
    ensures ins.context in Find(Put(es, ins), ins.context, ins.original).value.references
  {
    var r := Put(es, ins);
    var k := IndexOf(es, ins.context, ins.original);
    if k < 0 {
      FindFirst(r, |es|, ins.context, ins.original);
    } else {
      FindFirst(r, k, ins.context, ins.original);
    }
  }

  /** Put changes no entry with another pair. */
  lemma PutKeepsOtherEntries(es: seq<Entry>, ins: Insertion, i: nat)
    requires i < |es| && !Keyed(es[i], ins.context, ins.original)
    ensures i < |Put(es, ins)| && Put(es, ins)[i] == es[i]
  {
  }

  /** Put never creates a second entry for a pair. */
  lemma PutKeepsUniquePairs(es: seq<Entry>, ins: Insertion)
    requires UniquePairs(es)
    ensures UniquePairs(Put(es, ins))
  {
    var r := Put(es, ins);
    var k := IndexOf(es, ins.context, ins.original);
    if k >= 0 {
      forall i, j | 0 <= i < j < |r| ensures !Keyed(r[j], r[i].context, r[i].original) {
        assert Keyed(r[i], es[i].context, es[i].original) && Keyed(r[j], es[j].context, es[j].original);
      }
    }
  }

  /** A pair found before Put is still found after it, with at least the references it had. */
  lemma PutKeepsFound(es: seq<Entry>, ins: Insertion, context: string, original: string)
    requires Find(es, context, original).Some?
    ensures Find(Put(es, ins), context, original).Some?
    ensures forall x :: x in Find(es, context, original).value.references ==>
      x in Find(Put(es, ins), context, original).value.references
  {
    var r := Put(es, ins);
    var k := IndexOf(es, context, original);
    forall i | 0 <= i < |es| ensures Keyed(r[i], context, original) <==> Keyed(es[i], context, original) {
    }
    FindFirst(r, k, context, original);
  }

  /** A pair found before a run of insertions is still found after it, with its references. */
  lemma {:induction false} InsertAllKeepsFound(es: seq<Entry>, ins: seq<Insertion>, context: string, original: string)
    requires Find(es, context, original).Some?
    ensures Find(InsertAll(es, ins), context, original).Some?
    ensures forall x :: x in Find(es, context, original).value.references ==>
      x in Find(InsertAll(es, ins), context, original).value.references
    decreases |ins|
  {
    if ins != [] {
      PutKeepsFound(es, ins[0], context, original);
      InsertAllKeepsFound(Put(es, ins[0]), ins[1..], context, original);
    }
  }

  lemma {:induction false} InsertAllKeepsUniquePairs(es: seq<Entry>, ins: seq<Insertion>)
    requires UniquePairs(es)
    ensures UniquePairs(InsertAll(es, ins))
    decreases |ins|
  {
    if ins != [] {
      PutKeepsUniquePairs(es, ins[0]);
      InsertAllKeepsUniquePairs(Put(es, ins[0]), ins[1..]);
    }
  }

  /** Helper: an index with the pair, preceded by none, is what Find returns. */
  lemma FindFirst(es: seq<Entry>, k: nat, context: string, original: string)
    requires k < |es| && Keyed(es[k], context, original)
    requires forall i :: 0 <= i < k ==> !Keyed(es[i], context, original)
    ensures Find(es, context, original) == Some(es[k])
  {
    var j := IndexOf(es, context, original);
  }

  /** The insertions of a converter, applied in order. */
  function InsertAll(es: seq<Entry>, ins: seq<Insertion>): (r: seq<Entry>)
    decreases |ins|
  {
    if ins == [] then es else InsertAll(Put(es, ins[0]), ins[1..])
  }

  /** Every inserted pair is found at the end of the run, with its own context among its references. */
  lemma {:induction false} InsertAllFinds(es: seq<Entry>, ins: seq<Insertion>, j: nat)
    requires j < |ins|
    ensures Find(InsertAll(es, ins), ins[j].context, ins[j].original).Some?
    ensures ins[j].context in Find(InsertAll(es, ins), ins[j].context, ins[j].original).value.references
    decreases j
  {
    var next := Put(es, ins[0]);
    assert InsertAll(es, ins) == InsertAll(next, ins[1..]);
    if j == 0 {
      PutFinds(es, ins[0]);
      InsertAllKeepsFound(next, ins[1..], ins[0].context, ins[0].original);
    } else {
      assert ins[1..][j - 1] == ins[j];
      InsertAllFinds(next, ins[1..], j - 1);
    }
  }

  lemma {:induction false} InsertAllAppend(es: seq<Entry>, a: seq<Insertion>, b: seq<Insertion>)
    ensures InsertAll(es, a + b) == InsertAll(InsertAll(es, a), b)
    decreases |a|
  {
    if a != [] {
      assert (a + b)[0] == a[0] && (a + b)[1..] == a[1..] + b;
      InsertAllAppend(Put(es, a[0]), a[1..], b);
    } else {
      assert a + b == b;
    }
  }

  /** A converter's loop over its keys: applies each insertion in turn. */
  method InsertEach(es: seq<Entry>, ins: seq<Insertion>) returns (r: seq<Entry>)
    ensures r == InsertAll(es, ins)
  {
    r := es;
    var i := 0;
    while i < |ins|
      invariant 0 <= i <= |ins|
      invariant r == InsertAll(es, ins[..i])
    {
      InsertAllAppend(es, ins[..i], [ins[i]]);
      TakeNext(ins, i);
      r := Put(r, ins[i]);
      i := i + 1;
    }
    TakeWhole(ins);
  }

  /** `p` followed by the insertions of `r`, or the error of `r`. */
  function Prefixed(p: seq<Insertion>, r: Result<seq<Insertion>>): Result<seq<Insertion>> {
    if r.Err? then r else Ok(p + r.value)
  }

  /**
   * A converter's loop over its files: the insertions of each file in turn,
   * or the error of the first file that cannot be read.
   */
  function Concat(steps: seq<Result<seq<Insertion>>>): (r: Result<seq<Insertion>>)
    ensures r.Ok? <==> forall i :: 0 <= i < |steps| ==> steps[i].Ok?
    decreases |steps|
  {
    if steps == [] then Ok([])
    else
      var head :- steps[0];
      assert forall i :: 1 <= i < |steps| ==> steps[i] == steps[1..][i - 1];
      Prefixed(head, Concat(steps[1..]))
  }

  /** A failing run stops with the error of its first failing file. */
  lemma {:induction false} ConcatFirstError(steps: seq<Result<seq<Insertion>>>, k: nat)
    requires k < |steps| && steps[k].Err? && forall i :: 0 <= i < k ==> steps[i].Ok?
    ensures Concat(steps) == steps[k]
    decreases k
  {
    if k > 0 {
      assert forall i :: 0 <= i < k - 1 ==> steps[1..][i] == steps[i + 1];
      ConcatFirstError(steps[1..], k - 1);
    }
  }

  /** The insertions of every file are among those of the whole run. */
  lemma {:induction false} ConcatContains(steps: seq<Result<seq<Insertion>>>, i: nat, j: nat)
    requires Concat(steps).Ok? && i < |steps| && j < |steps[i].value|
    ensures steps[i].value[j] in Concat(steps).value
    decreases i
  {
    var tail := Concat(steps[1..]);
    assert Concat(steps).value == steps[0].value + tail.value;
    if i > 0 {
      assert steps[1..][i - 1] == steps[i];
      ConcatContains(steps[1..], i - 1, j);
    }
  }

  /** The loop, one file further. */
  lemma ConcatStep(steps: seq<Result<seq<Insertion>>>, i: nat, plan: seq<Insertion>, head: seq<Insertion>)
    requires i < |steps| && steps[i] == Ok(head)
    ensures Prefixed(plan, Concat(steps[i..])) == Prefixed(plan + head, Concat(steps[i + 1..]))
  {
    assert steps[i..][0] == steps[i] && steps[i..][1..] == steps[i + 1..];
    var tail := Concat(steps[i + 1..]);
    if tail.Ok? {
      assert plan + (head + tail.value) == plan + head + tail.value;
    }
  }

  /** The loop stops at a file that cannot be read. */
  lemma ConcatStops(steps: seq<Result<seq<Insertion>>>, i: nat, plan: seq<Insertion>)
    requires i < |steps| && steps[i].Err?
    ensures Prefixed(plan, Concat(steps[i..])) == steps[i]
  {
    assert steps[i..][0] == steps[i];
  }

  /** The loop has run over every file. */
  lemma ConcatDone(steps: seq<Result<seq<Insertion>>>, plan: seq<Insertion>)
    ensures Prefixed(plan, Concat(steps[|steps|..])) == Ok(plan)
  {
    assert steps[|steps|..] == [];
    assert plan + [] == plan;
  }

  /** The loop before its first file. */
  lemma ConcatStart(steps: seq<Result<seq<Insertion>>>)
    ensures Prefixed([], Concat(steps[0..])) == Concat(steps)
  {
    assert steps[0..] == steps;
    var whole := Concat(steps);
    if whole.Ok? {
      assert [] + whole.value == whole.value;
    }
  }

  /** The entry a fresh insertion becomes. */
  function NewEntry(ins: Insertion): Entry {
    Entry(ins.context, ins.original, ins.translation, [ins.context])
  }

  function NewEntries(ins: seq<Insertion>): (r: seq<Entry>)
    ensures |r| == |ins|
  {
    if ins == [] then [] else [NewEntry(ins[0])] + NewEntries(ins[1..])
  }

  lemma {:induction false} NewEntriesAt(ins: seq<Insertion>, i: nat)
    requires i < |ins|
    ensures NewEntries(ins)[i] == NewEntry(ins[i])
  {
    if i > 0 { NewEntriesAt(ins[1..], i - 1); }
  }

  /** No two insertions share their pair, and none is already in `es`. */
  ghost predicate Fresh(es: seq<Entry>, ins: seq<Insertion>) {
    && (forall i, j :: 0 <= i < j < |ins| ==> ins[i].context != ins[j].context || ins[i].original != ins[j].original)
    && (forall i :: 0 <= i < |ins| ==> Find(es, ins[i].context, ins[i].original).None?)
  }

  lemma FindAfterAppend(es: seq<Entry>, e: Entry, context: string, original: string)
    requires Find(es, context, original).None? && !Keyed(e, context, original)
    ensures Find(es + [e], context, original).None?
  {
    var s := es + [e];
    FindNoneIff(es, context, original);
    forall i | 0 <= i < |s| ensures !Keyed(s[i], context, original) {
      if i < |es| { assert s[i] == es[i]; }
    }
    FindNoneIff(s, context, original);
  }

  /**
   * Insertions with pairwise distinct pairs, none already present, append
   * exactly one entry each, in insertion order.
   */
  lemma {:induction false} InsertAllFresh(es: seq<Entry>, ins: seq<Insertion>)
    requires Fresh(es, ins)
    ensures InsertAll(es, ins) == es + NewEntries(ins)
    decreases |ins|
  {
    if ins != [] {
      var es' := es + [NewEntry(ins[0])];
      FreshTail(es, ins);
      assert InsertAll(es, ins) == InsertAll(es', ins[1..]);
      InsertAllFresh(es', ins[1..]);
      assert NewEntries(ins) == [NewEntry(ins[0])] + NewEntries(ins[1..]);
      AppendAssoc(es, [NewEntry(ins[0])], NewEntries(ins[1..]));
    }
  }

  /** Helper: after the first fresh insertion the remaining ones are still fresh. */
  lemma FreshTail(es: seq<Entry>, ins: seq<Insertion>)
    requires Fresh(es, ins) && ins != []
    ensures Put(es, ins[0]) == es + [NewEntry(ins[0])]
    ensures Fresh(es + [NewEntry(ins[0])], ins[1..])
  {
    var rest := ins[1..];
    forall i | 0 <= i < |rest| ensures Find(es + [NewEntry(ins[0])], rest[i].context, rest[i].original).None? {
      assert rest[i] == ins[i + 1];
      FindAfterAppend(es, NewEntry(ins[0]), rest[i].context, rest[i].original);
    }
    forall i, j | 0 <= i < j < |rest|
      ensures rest[i].context != rest[j].context || rest[i].original != rest[j].original
    {
      assert rest[i] == ins[i + 1] && rest[j] == ins[j + 1];
    }
  }

  // ---------------------------------------------------------------------------
  // Headers

  predicate IsLanguageHeader(name: string) {
    name == "Language" || name == "Language-Team"
  }

  /** The header lines both converters set before the language team. */
  function LeadingHeaders(projectId: string, moduleName: string, now: string): seq<(string, string)> {
    [ ("Project-Id-Version", projectId + " " + moduleName),
      ("Report-Msgid-Bugs-To", ""),
      ("POT-Creation-Date", now),
      ("PO-Revision-Date", now),
      ("Last-Translator", "FULL NAME <EMAIL@ADDRESS>") ]
  }

  /** The fixed MIME lines both converters set. */
  function MimeHeaders(): seq<(string, string)> {
    [ ("MIME-Version", "1.0"),
      ("Content-Type", "text/plain; charset=UTF-8"),
      ("Content-Transfer-Encoding", "8bit") ]
  }

  /**
   * The headers the PO converter sets, in the order it sets them; `now` is
   * the formatted creation time.
   */
  function PoHeaders(projectId: string, moduleName: string, locale: string, now: string): (h: seq<(string, string)>)
    ensures |h| > 0 && h[0] == ("Project-Id-Version", projectId + " " + moduleName)
    ensures ("Language-Team", locale) in h && ("Language", locale) in h
  {
    LeadingHeaders(projectId, moduleName, now) + [("Language-Team", locale)] + MimeHeaders() + [("Language", locale)]
  }

  /** Helper: no language line among the leading headers. */
  lemma LeadingHeadersNotLanguage(projectId: string, moduleName: string, now: string)
    ensures forall i :: 0 <= i < |LeadingHeaders(projectId, moduleName, now)| ==>
      !IsLanguageHeader(LeadingHeaders(projectId, moduleName, now)[i].0)
  {
  }

  /** Helper: no language line among the MIME headers. */
  lemma MimeHeadersNotLanguage()
    ensures forall i :: 0 <= i < |MimeHeaders()| ==> !IsLanguageHeader(MimeHeaders()[i].0)
  {
  }

  /** The headers the template converter sets: no language lines. */
  function PotHeaders(projectId: string, moduleName: string, now: string): (h: seq<(string, string)>)
    ensures |h| > 0 && h[0] == ("Project-Id-Version", projectId + " " + moduleName)
    ensures forall i :: 0 <= i < |h| ==> !IsLanguageHeader(h[i].0)
  {
    var lead, mime := LeadingHeaders(projectId, moduleName, now), MimeHeaders();
    LeadingHeadersNotLanguage(projectId, moduleName, now);
    MimeHeadersNotLanguage();
    var h := lead + mime;
    assert forall i :: 0 <= i < |h| ==> h[i] == if i < |lead| then lead[i] else mime[i - |lead|];
    h
  }

  /** Header lines other than the two language lines. */
  function WithoutLanguage(headers: seq<(string, string)>): (r: seq<(string, string)>)
    ensures forall i :: 0 <= i < |r| ==> !IsLanguageHeader(r[i].0)
  {
    if headers == [] then []
    else (if IsLanguageHeader(headers[0].0) then [] else [headers[0]]) + WithoutLanguage(headers[1..])
  }

  lemma {:induction false} WithoutLanguageAppend(a: seq<(string, string)>, b: seq<(string, string)>)
    ensures WithoutLanguage(a + b) == WithoutLanguage(a) + WithoutLanguage(b)
  {
    if a == [] {
      assert a + b == b;
    } else {
      assert (a + b)[0] == a[0] && (a + b)[1..] == a[1..] + b;
      WithoutLanguageAppend(a[1..], b);
    }
  }

  lemma {:induction false} WithoutLanguageKeeps(h: seq<(string, string)>)
    requires forall i :: 0 <= i < |h| ==> !IsLanguageHeader(h[i].0)
    ensures WithoutLanguage(h) == h
  {
    if h != [] {
      WithoutLanguageKeeps(h[1..]);
      assert h == [h[0]] + h[1..];
    }
  }

  /** The template's headers are the PO headers minus the language lines. */
  lemma PotHeadersArePoHeadersWithoutLanguage(projectId: string, moduleName: string, locale: string, now: string)
    ensures PotHeaders(projectId, moduleName, now) == WithoutLanguage(PoHeaders(projectId, moduleName, locale, now))
  {
    var lead, mime := LeadingHeaders(projectId, moduleName, now), MimeHeaders();
    WithoutLanguageAppend(lead + [("Language-Team", locale)] + mime, [("Language", locale)]);
    WithoutLanguageAppend(lead + [("Language-Team", locale)], mime);
    WithoutLanguageAppend(lead, [("Language-Team", locale)]);
    LeadingHeadersNotLanguage(projectId, moduleName, now);
    MimeHeadersNotLanguage();
    WithoutLanguageKeeps(lead);
    WithoutLanguageKeeps(mime);
    assert WithoutLanguage([("Language", locale)]) == [];
    assert WithoutLanguage([("Language-Team", locale)]) == [];
  }
}

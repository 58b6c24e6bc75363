/** The Sync All Places queue job: it builds a search query naming every
    Google Places Sync field, finds the entries that have a value in one of
    them, and re-saves each entry in turn (which triggers the field's sync),
    reporting progress before each save and logging a save that throws
    without stopping the run.
    The field list, the entry search, the save and the queue are outside
    the job; they are parameters, and the job's visible behaviour is the
    trace of progress reports, saves and logged failures it produces. */
module SyncJob {
  import opened Php

  /** A field of the global field layout, reduced to its handle and whether
      it is a Google Places Sync field. */
  datatype FieldDef = FieldDef(handle: string, isPlacesSync: bool)

  type EntryId = nat

  /** What saveElement does with an entry: it returns, or it throws. */
  datatype SaveResult = Saved | Threw(message: string)

  /** One observable step of the job: a setProgress call (the fraction and
      the "step of total" label's two numbers), a saveElement call, or an
      error logged for an entry whose save threw. */
  datatype Effect =
    | Progress(fraction: real, step: nat, total: nat)
    | SaveElement(entry: EntryId)
    | LogFailure(entry: EntryId, message: string)

  const Separator := " OR "

  /** The search term for a field: any value in it. */
  function Term(handle: string): string {
    handle + ":*"
  }

  // ---------------------------------------------------------------------
  // The search query.
  // ---------------------------------------------------------------------

  /** The position of the last Google Places Sync field, if there is one. */
  function LastSyncIndex(fields: seq<FieldDef>): (k: Option<nat>)
    ensures k.None? <==> forall i | 0 <= i < |fields| :: !fields[i].isPlacesSync
    ensures k.Some? ==> && k.value < |fields| && fields[k.value].isPlacesSync
                        && forall j | k.value < j < |fields| :: !fields[j].isPlacesSync
  {
    if fields == [] then None
    else if fields[|fields| - 1].isPlacesSync then Some(|fields| - 1)
    else LastSyncIndex(fields[..|fields| - 1])
  }

  /** The search terms of all Google Places Sync fields, in field order. */
  function Terms(fields: seq<FieldDef>): (ts: seq<string>)
    ensures |ts| <= |fields|
    ensures forall f | f in fields && f.isPlacesSync :: Term(f.handle) in ts
    ensures forall t | t in ts :: exists f | f in fields && f.isPlacesSync :: t == Term(f.handle)
  {
    if fields == [] then []
    else
      var init := fields[..|fields| - 1];
      var last := fields[|fields| - 1];
      assert fields == init + [last];
      Terms(init) + (if last.isPlacesSync then [Term(last.handle)] else [])
  }

  /** The terms, each preceded by the separator: what appending
      `' OR ' . $field->handle . ':*'` for every field builds. */
  function Prefixed(ts: seq<string>): string {
    if ts == [] then "" else Prefixed(ts[..|ts| - 1]) + Separator + ts[|ts| - 1]
  }

  /** The terms joined by the separator. */
  function JoinOr(ts: seq<string>): string {
    if ts == [] then ""
    else if |ts| == 1 then ts[0]
    else JoinOr(ts[..|ts| - 1]) + Separator + ts[|ts| - 1]
  }

  /** `preg_replace('/ OR /', '', $s, 1)`: the first occurrence of the
      pattern, if any, is removed. */
  function RemoveFirst(pattern: string, s: string): (r: string)
    requires pattern != []
    ensures r == s || |r| == |s| - |pattern|
    ensures |s| >= |pattern| && s[..|pattern|] == pattern ==> r == s[|pattern|..]
  {
    if |s| < |pattern| then s
    else if s[..|pattern|] == pattern then s[|pattern|..]
    else
      var rest := RemoveFirst(pattern, s[1..]);
      if rest == s[1..] then
        assert [s[0]] + s[1..] == s;
        s
      else
        [s[0]] + rest
  }

  /** Removing the separator in front of the prefixed terms joins them. */
  lemma {:induction false} PrefixedJoin(ts: seq<string>)
    requires ts != []
    ensures Prefixed(ts) == Separator + JoinOr(ts)
  {
    if |ts| > 1 {
      PrefixedJoin(ts[..|ts| - 1]);
    }
  }

  lemma RemoveLeadingSeparator(rest: string)
    ensures RemoveFirst(Separator, Separator + rest) == rest
  {
    assert (Separator + rest)[..|Separator|] == Separator;
    assert (Separator + rest)[|Separator|..] == rest;
  }

  /** The query the job searches with, as written: the loop assigns rather
      than appends, so only the last Google Places Sync field is left, and
      the removal of the first " OR " leaves just its term. */
  method BuildSearchQueryAsWritten(allFields: seq<FieldDef>) returns (query: string)
    ensures LastSyncIndex(allFields).None? ==> query == ""
    ensures LastSyncIndex(allFields).Some? ==> query == Term(allFields[LastSyncIndex(allFields).value].handle)
  {
    var searchQuery := "";
    for i := 0 to |allFields|
      invariant LastSyncIndex(allFields[..i]).None? ==> searchQuery == ""
      invariant LastSyncIndex(allFields[..i]).Some? ==>
                  searchQuery == Separator + Term(allFields[LastSyncIndex(allFields[..i]).value].handle)
    {
      assert allFields[..i + 1][..i] == allFields[..i];
      if allFields[i].isPlacesSync {
        searchQuery := Separator + allFields[i].handle + ":*";
      }
    }
    assert allFields[..|allFields|] == allFields;
    if LastSyncIndex(allFields).Some? {
      RemoveLeadingSeparator(Term(allFields[LastSyncIndex(allFields).value].handle));
    }
    query := RemoveFirst(Separator, searchQuery);
  }

  /** The query the job evidently means to build: the terms of all Google
      Places Sync fields joined by " OR ", so that an entry with a value in
      any of them is found. */
  method BuildSearchQuery(allFields: seq<FieldDef>) returns (query: string)
    ensures query == JoinOr(Terms(allFields))
  {
    var searchQuery := "";
    for i := 0 to |allFields|
      invariant searchQuery == Prefixed(Terms(allFields[..i]))
    {
      assert allFields[..i + 1][..|allFields[..i + 1]| - 1] == allFields[..i];
      var before := Terms(allFields[..i]);
      assert Terms(allFields[..i + 1])
             == before + (if allFields[i].isPlacesSync then [Term(allFields[i].handle)] else []);
      if allFields[i].isPlacesSync {
        assert (before + [Term(allFields[i].handle)])[..|before|] == before;
        assert Prefixed(before + [Term(allFields[i].handle)]) == Prefixed(before) + Separator + Term(allFields[i].handle);
        searchQuery := searchQuery + Separator + Term(allFields[i].handle);
      } else {
        assert before + [] == before;
      }
    }
    assert allFields[..|allFields|] == allFields;
    var ts := Terms(allFields);
    if ts != [] {
      PrefixedJoin(ts);
      RemoveLeadingSeparator(JoinOr(ts));
    }
    query := RemoveFirst(Separator, searchQuery);
  }

  /** The two queries agree when there is at most one Google Places Sync
      field. */
  lemma SingleFieldQueriesAgree(allFields: seq<FieldDef>, k: nat)
    requires k < |allFields| && allFields[k].isPlacesSync
    requires forall i | 0 <= i < |allFields| && i != k :: !allFields[i].isPlacesSync
    ensures LastSyncIndex(allFields) == Some(k)
    ensures JoinOr(Terms(allFields)) == Term(allFields[k].handle)
  {
    assert Terms(allFields) == [Term(allFields[k].handle)] by {
      TermsOfOne(allFields, k);
    }
  }

  lemma {:induction false} TermsOfOne(fields: seq<FieldDef>, k: nat)
    requires k < |fields| && fields[k].isPlacesSync
    requires forall i | 0 <= i < |fields| && i != k :: !fields[i].isPlacesSync
    ensures Terms(fields) == [Term(fields[k].handle)]
  {
    var init := fields[..|fields| - 1];
    if k == |fields| - 1 {
      NoTerms(init);
    } else {
      TermsOfOne(init, k);
    }
  }

  /** With two Google Places Sync fields the query built as written names
      only the second, so entries whose place data sits in the first field
      alone are never re-synced; the intended query names both. */
  lemma AsWrittenQueryDropsEarlierFields()
    ensures var fields := [FieldDef("venue", true), FieldDef("office", true)];
            && LastSyncIndex(fields) == Some(1)
            && JoinOr(Terms(fields)) == Term("venue") + Separator + Term("office")
  {
    var fields := [FieldDef("venue", true), FieldDef("office", true)];
    assert fields[..1] == [FieldDef("venue", true)];
    assert fields[..1][..0] == [];
    assert Terms(fields[..1]) == [Term("venue")];
    assert Terms(fields) == [Term("venue"), Term("office")];
    assert [Term("venue"), Term("office")][..1] == [Term("venue")];
  }

  // ---------------------------------------------------------------------
  // The run over the entries.
  // ---------------------------------------------------------------------

  /** The entries the job visits: none when the query is empty. */
  function EntriesFor(query: string, search: string -> seq<EntryId>): (entries: seq<EntryId>)
    ensures query == "" ==> entries == []
    ensures query != "" ==> entries == search(query)
  {
    if |query| > 0 then search(query) else []
  }

  /** What the job does for entry `i` of `entries`. */
  function ItemEffects(entries: seq<EntryId>, i: nat, save: EntryId -> SaveResult): seq<Effect>
    requires i < |entries|
  {
    var result := save(entries[i]);
    [Progress(i as real / |entries| as real, i + 1, |entries|), SaveElement(entries[i])]
    + (if result.Threw? then [LogFailure(entries[i], result.message)] else [])
  }

  /** What the job does for the first `n` entries. */
  function JobEffects(entries: seq<EntryId>, n: nat, save: EntryId -> SaveResult): seq<Effect>
    requires n <= |entries|
  {
    if n == 0 then [] else JobEffects(entries, n - 1, save) + ItemEffects(entries, n - 1, save)
  }

  /** `execute($queue)`, searching with the intended query. */
  method Execute(allFields: seq<FieldDef>, search: string -> seq<EntryId>, save: EntryId -> SaveResult)
    returns (effects: seq<Effect>)
    ensures var entries := EntriesFor(JoinOr(Terms(allFields)), search);
            effects == JobEffects(entries, |entries|, save)
  {
    var searchQuery := BuildSearchQuery(allFields);
    var entries := if |searchQuery| > 0 then search(searchQuery) else [];
    var totalEntries := |entries|;
    effects := [];
    for i := 0 to totalEntries
      invariant effects == JobEffects(entries, i, save)
    {
      effects := effects + [Progress(i as real / totalEntries as real, i + 1, totalEntries)];
      effects := effects + [SaveElement(entries[i])];
      var result := save(entries[i]);
      if result.Threw? {
        effects := effects + [LogFailure(entries[i], result.message)];
      }
    }
  }

  // ---------------------------------------------------------------------
  // Properties of the run.
  // ---------------------------------------------------------------------

  /** The entries saved, in order. */
  function Saves(effects: seq<Effect>): seq<EntryId> {
    if effects == [] then []
    else Saves(effects[..|effects| - 1])
         + (if effects[|effects| - 1].SaveElement? then [effects[|effects| - 1].entry] else [])
  }

  /** The progress reports, in order. */
  function Reports(effects: seq<Effect>): seq<Effect> {
    if effects == [] then []
    else Reports(effects[..|effects| - 1])
         + (if effects[|effects| - 1].Progress? then [effects[|effects| - 1]] else [])
  }

  /** The failures logged, in order. */
  function Failures(effects: seq<Effect>): seq<EntryId> {
    if effects == [] then []
    else Failures(effects[..|effects| - 1])
         + (if effects[|effects| - 1].LogFailure? then [effects[|effects| - 1].entry] else [])
  }

  /** The entries among the first `n` whose save throws, in order. */
  function Throwing(entries: seq<EntryId>, n: nat, save: EntryId -> SaveResult): seq<EntryId>
    requires n <= |entries|
  {
    if n == 0 then []
    else Throwing(entries, n - 1, save) + (if save(entries[n - 1]).Threw? then [entries[n - 1]] else [])
  }

  /** One entry's effects: one report, one save, and a logged failure
      exactly when the save throws. */
  lemma ItemShape(entries: seq<EntryId>, i: nat, save: EntryId -> SaveResult)
    requires i < |entries|
    ensures var p := Progress(i as real / |entries| as real, i + 1, |entries|);
            var e := SaveElement(entries[i]);
            ItemEffects(entries, i, save)
            == if save(entries[i]).Threw? then [p, e, LogFailure(entries[i], save(entries[i]).message)] else [p, e]
  {
  }

  lemma ItemSaves(entries: seq<EntryId>, i: nat, save: EntryId -> SaveResult)
    requires i < |entries|
    ensures Saves(ItemEffects(entries, i, save)) == [entries[i]]
  {
    ItemShape(entries, i, save);
    var item := ItemEffects(entries, i, save);
    assert item[..0] == [];
    assert item[..1] == [item[0]] && Saves(item[..1]) == [];
    assert item[..2][..1] == item[..1];
    assert Saves(item[..2]) == [entries[i]];
    if |item| == 3 {
      assert item[..3] == item;
      assert item[..3][..2] == item[..2];
    } else {
      assert item[..2] == item;
    }
  }

  lemma ItemReports(entries: seq<EntryId>, i: nat, save: EntryId -> SaveResult)
    requires i < |entries|
    ensures Reports(ItemEffects(entries, i, save)) == [Progress(i as real / |entries| as real, i + 1, |entries|)]
  {
    ItemShape(entries, i, save);
    var item := ItemEffects(entries, i, save);
    assert item[..1][..0] == [];
    assert Reports(item[..1]) == [item[0]];
    assert item[..2][..1] == item[..1];
    assert Reports(item[..2]) == [item[0]];
    if |item| == 3 {
      assert item[..3] == item;
      assert item[..3][..2] == item[..2];
    } else {
      assert item[..2] == item;
    }
  }

  lemma ItemFailures(entries: seq<EntryId>, i: nat, save: EntryId -> SaveResult)
    requires i < |entries|
    ensures Failures(ItemEffects(entries, i, save)) == (if save(entries[i]).Threw? then [entries[i]] else [])
  {
    ItemShape(entries, i, save);
    var item := ItemEffects(entries, i, save);
    assert item[..1][..0] == [];
    assert Failures(item[..1]) == [];
    assert item[..2][..1] == item[..1];
    assert Failures(item[..2]) == [];
    if |item| == 3 {
      assert item[..3] == item;
      assert item[..3][..2] == item[..2];
    } else {
      assert item[..2] == item;
    }
  }

  lemma {:induction false} SavesAppend(a: seq<Effect>, b: seq<Effect>)
    ensures Saves(a + b) == Saves(a) + Saves(b)
  {
    if b == [] {
      assert a + b == a;
    } else {
      assert (a + b)[..|a + b| - 1] == a + b[..|b| - 1];
      SavesAppend(a, b[..|b| - 1]);
    }
  }

  lemma {:induction false} ReportsAppend(a: seq<Effect>, b: seq<Effect>)
    ensures Reports(a + b) == Reports(a) + Reports(b)
  {
    if b == [] {
      assert a + b == a;
    } else {
      assert (a + b)[..|a + b| - 1] == a + b[..|b| - 1];
      ReportsAppend(a, b[..|b| - 1]);
    }
  }

  lemma {:induction false} FailuresAppend(a: seq<Effect>, b: seq<Effect>)
    ensures Failures(a + b) == Failures(a) + Failures(b)
  {
    if b == [] {
      assert a + b == a;
    } else {
      assert (a + b)[..|a + b| - 1] == a + b[..|b| - 1];
      FailuresAppend(a, b[..|b| - 1]);
    }
  }

  /** Each entry is saved exactly once, in the order the search returned
      them, whether or not earlier saves threw. */
  lemma {:induction false} SavesEveryEntryInOrder(entries: seq<EntryId>, n: nat, save: EntryId -> SaveResult)
    requires n <= |entries|
    ensures Saves(JobEffects(entries, n, save)) == entries[..n]
  {
    if n > 0 {
      var prev, item := JobEffects(entries, n - 1, save), ItemEffects(entries, n - 1, save);
      calc {
        Saves(JobEffects(entries, n, save));
        Saves(prev + item);
        { SavesAppend(prev, item); }
        Saves(prev) + Saves(item);
        { SavesEveryEntryInOrder(entries, n - 1, save); ItemSaves(entries, n - 1, save); }
        entries[..n - 1] + [entries[n - 1]];
        entries[..n];
      }
    }
  }

  /** Before the save of entry `i` progress is reported as the fraction
      i/total with the label "i+1 of total": the steps run 1..total, and
      the fraction stays in [0, 1). */
  lemma {:induction false} ProgressSteps(entries: seq<EntryId>, n: nat, save: EntryId -> SaveResult)
    requires n <= |entries|
    ensures var reports := Reports(JobEffects(entries, n, save));
            && |reports| == n
            && forall k | 0 <= k < n ::
                 && reports[k] == Progress(k as real / |entries| as real, k + 1, |entries|)
                 && 0.0 <= reports[k].fraction < 1.0
  {
    if n > 0 {
      var prev, item := JobEffects(entries, n - 1, save), ItemEffects(entries, n - 1, save);
      var last := Progress((n - 1) as real / |entries| as real, n, |entries|);
      var reports := Reports(JobEffects(entries, n, save));
      assert reports == Reports(prev) + [last] by {
        assert JobEffects(entries, n, save) == prev + item;
        ReportsAppend(prev, item);
        ItemReports(entries, n - 1, save);
      }
      ProgressSteps(entries, n - 1, save);
      forall k | 0 <= k < n
        ensures reports[k] == Progress(k as real / |entries| as real, k + 1, |entries|)
        ensures 0.0 <= reports[k].fraction < 1.0
      {
        if k < n - 1 {
          assert reports[k] == Reports(prev)[k];
        } else {
          assert reports[k] == last;
        }
        FractionBelowOne(k, |entries|);
      }
    }
  }

  lemma FractionBelowOne(k: nat, total: nat)
    requires k < total
    ensures 0.0 <= k as real / total as real < 1.0
  {
    assert (k as real / total as real) * total as real == k as real;
  }

  /** A save that throws is logged, and the loop goes on: the failures
      logged are exactly the entries whose save threw, in order. */
  lemma {:induction false} FailuresLoggedInOrder(entries: seq<EntryId>, n: nat, save: EntryId -> SaveResult)
    requires n <= |entries|
    ensures Failures(JobEffects(entries, n, save)) == Throwing(entries, n, save)
  {
    if n > 0 {
      var prev, item := JobEffects(entries, n - 1, save), ItemEffects(entries, n - 1, save);
      calc {
        Failures(JobEffects(entries, n, save));
        Failures(prev + item);
        { FailuresAppend(prev, item); }
        Failures(prev) + Failures(item);
        { FailuresLoggedInOrder(entries, n - 1, save); ItemFailures(entries, n - 1, save); }
        Throwing(entries, n - 1, save) + (if save(entries[n - 1]).Threw? then [entries[n - 1]] else []);
        Throwing(entries, n, save);
      }
    }
  }

  /** With no Google Places Sync field the query is empty, nothing is
      searched, and the job does nothing (so it never divides by zero). */
  lemma NoSyncFieldNoWork(allFields: seq<FieldDef>, search: string -> seq<EntryId>, save: EntryId -> SaveResult)
    requires forall i | 0 <= i < |allFields| :: !allFields[i].isPlacesSync
    ensures JoinOr(Terms(allFields)) == ""
    ensures EntriesFor(JoinOr(Terms(allFields)), search) == []
  {
    NoTerms(allFields);
  }

  lemma {:induction false} NoTerms(fields: seq<FieldDef>)
    requires forall i | 0 <= i < |fields| :: !fields[i].isPlacesSync
    ensures Terms(fields) == []
  {
    if fields != [] {
      NoTerms(fields[..|fields| - 1]);
    }
  }
}

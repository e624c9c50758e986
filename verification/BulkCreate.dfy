/** Bulk creation: the whole list is checked before anything is created. */
module BulkCreate {
  import opened Basics
  import opened Results

  /** `repeats` is the row that a duplicate repeats. */
  datatype RowError = RowError(index: int, field: Option<string>, code: string, repeats: Option<int>)

  datatype ParsedRow<T> = ParsedRow(index: int, data: T)

  /** What the schema says of one item: the data, or the first path element of each issue. */
  datatype Item<T> = Valid(data: T) | Invalid(issues: seq<Option<string>>)

  datatype Summary = Summary(total: int, created: int, failed: int)

  datatype BulkResult = BulkResult(dryRun: bool, created: seq<int>, errors: seq<RowError>, summary: Summary)

  // Duplicates

  /** The first of these rows with this key. */
  function FirstWithKey<T>(rows: seq<ParsedRow<T>>, key: T -> string, k: string): Option<int> {
    if rows == [] then None
    else if key(rows[0].data) == k then Some(rows[0].index) else FirstWithKey(rows[1..], key, k)
  }

  lemma {:induction false} FirstWithKeySnoc<T>(rows: seq<ParsedRow<T>>, key: T -> string, row: ParsedRow<T>, k: string)
    ensures FirstWithKey(rows + [row], key, k) ==
      if FirstWithKey(rows, key, k).Some? then FirstWithKey(rows, key, k)
      else if key(row.data) == k then Some(row.index) else None
  {
    if rows == [] {
      assert rows + [row] == [row];
    } else {
      FirstWithKeySnoc(rows[1..], key, row, k);
      assert (rows + [row])[1..] == rows[1..] + [row];
    }
  }

  lemma {:induction false} FoundIffPresent<T>(rows: seq<ParsedRow<T>>, key: T -> string, k: string)
    ensures FirstWithKey(rows, key, k).Some? <==> exists i :: 0 <= i < |rows| && key(rows[i].data) == k
  {
    if rows != [] {
      FoundIffPresent(rows[1..], key, k);
      if i :| 0 <= i < |rows| && key(rows[i].data) == k {
        assert i > 0 ==> key(rows[1..][i - 1].data) == k;
      }
      if i :| 0 <= i < |rows[1..]| && key(rows[1..][i].data) == k {
        assert key(rows[i + 1].data) == k;
      }
    }
  }

  /** An error for each row whose key has come before, with the first row that had it. */
  function Duplicates<T>(rows: seq<ParsedRow<T>>, key: T -> string, field: string): seq<RowError> {
    if rows == [] then []
    else
      var front, last := rows[..|rows| - 1], rows[|rows| - 1];
      var first := FirstWithKey(front, key, key(last.data));
      Duplicates(front, key, field)
        + if first.Some? then [RowError(last.index, Some(field), "DUPLICATE_IN_BATCH", first)] else []
  }

  method DuplicatesInBatch<T>(rows: seq<ParsedRow<T>>, key: T -> string, field: string) returns (errors: seq<RowError>)
    ensures errors == Duplicates(rows, key, field)
  {
    var seen: map<string, int> := map[];
    errors := [];
    for i := 0 to |rows|
      invariant errors == Duplicates(rows[..i], key, field)
      invariant forall k :: FirstWithKey(rows[..i], key, k) == if k in seen then Some(seen[k]) else None
    {
      assert rows[..i + 1] == rows[..i] + [rows[i]] && rows[..i + 1][..i] == rows[..i];
      forall k { FirstWithKeySnoc(rows[..i], key, rows[i], k); }
      var k := key(rows[i].data);
      if k in seen {
        errors := errors + [RowError(rows[i].index, Some(field), "DUPLICATE_IN_BATCH", Some(seen[k]))];
      } else {
        seen := seen[k := rows[i].index];
      }
    }
    assert rows[..|rows|] == rows;
  }

  predicate Flagged(errors: seq<RowError>, index: int) { exists e :: 0 <= e < |errors| && errors[e].index == index }

  /** The rows carry increasing positions, as parsing numbers them. */
  predicate Numbered<T>(rows: seq<ParsedRow<T>>) {
    forall i, j :: 0 <= i < j < |rows| ==> rows[i].index < rows[j].index
  }

  lemma {:induction false} FlagsAreOfRows<T>(rows: seq<ParsedRow<T>>, key: T -> string, field: string, index: int)
    requires Flagged(Duplicates(rows, key, field), index)
    ensures exists i :: 0 <= i < |rows| && rows[i].index == index
  {
    var last := |rows| - 1;
    var earlier := Duplicates(rows[..last], key, field);
    var e :| 0 <= e < |Duplicates(rows, key, field)| && Duplicates(rows, key, field)[e].index == index;
    if e < |earlier| {
      assert earlier[e].index == index;
      FlagsAreOfRows(rows[..last], key, field, index);
      var i :| 0 <= i < last && rows[..last][i].index == index;
      assert rows[i].index == index;
    } else {
      assert rows[last].index == index;
    }
  }

  /** A row is flagged if and only if an earlier row has its key: exactly the first ones of each key pass. */
  lemma {:induction false} FlaggedIffRepeated<T>(rows: seq<ParsedRow<T>>, key: T -> string, field: string, i: nat)
    requires Numbered(rows) && i < |rows|
    ensures Flagged(Duplicates(rows, key, field), rows[i].index) <==>
      exists j :: 0 <= j < i && key(rows[j].data) == key(rows[i].data)
  {
    var last := |rows| - 1;
    var front, errors := rows[..last], Duplicates(rows, key, field);
    var earlier := Duplicates(front, key, field);
    var first := FirstWithKey(front, key, key(rows[last].data));
    var more := if first.Some? then [RowError(rows[last].index, Some(field), "DUPLICATE_IN_BATCH", first)] else [];
    FlaggedInParts(earlier, more, rows[i].index);
    assert errors == earlier + more;
    hide Duplicates, FirstWithKey, Flagged;
    if i < last {
      FlaggedIffRepeated(front, key, field, i);
      NobodyFlagged(more, rows[i].index);
    } else {
      FoundIffPresent(front, key, key(rows[last].data));
      LastNotFlaggedBefore(rows, key, field);
      NobodyFlagged(more, rows[i].index);
    }
  }

  lemma FlaggedInParts(a: seq<RowError>, b: seq<RowError>, index: int)
    ensures Flagged(a + b, index) <==> Flagged(a, index) || Flagged(b, index)
  {
    if e :| 0 <= e < |a| && a[e].index == index { assert (a + b)[e].index == index; }
    if e :| 0 <= e < |b| && b[e].index == index { assert (a + b)[|a| + e].index == index; }
  }

  lemma NobodyFlagged(errors: seq<RowError>, index: int)
    requires |errors| <= 1
    ensures Flagged(errors, index) <==> errors != [] && errors[0].index == index
  {
  }

  /** The positions increase, so the earlier rows raise no flag for the last one. */
  lemma LastNotFlaggedBefore<T>(rows: seq<ParsedRow<T>>, key: T -> string, field: string)
    requires Numbered(rows) && rows != []
    ensures !Flagged(Duplicates(rows[..|rows| - 1], key, field), rows[|rows| - 1].index)
  {
    hide Duplicates;
    var front, index := rows[..|rows| - 1], rows[|rows| - 1].index;
    if Flagged(Duplicates(front, key, field), index) {
      FlagsAreOfRows(front, key, field, index);
      assert false;
    }
  }

  /** Rows without a flag have pairwise different keys. */
  lemma UnflaggedKeysDiffer<T>(rows: seq<ParsedRow<T>>, key: T -> string, field: string, i: nat, j: nat)
    requires Numbered(rows) && i < |rows| && j < |rows| && i != j
    requires !Flagged(Duplicates(rows, key, field), rows[i].index)
    requires !Flagged(Duplicates(rows, key, field), rows[j].index)
    ensures key(rows[i].data) != key(rows[j].data)
  {
    FlaggedIffRepeated(rows, key, field, i);
    FlaggedIffRepeated(rows, key, field, j);
  }

  // The limit of the plan

  function LimitError(index: int): RowError { RowError(index, None, "PLAN_LIMIT_EXCEEDED", None) }

  /** One error for each row beyond the free places. */
  function OverPlanLimit<T>(rows: seq<ParsedRow<T>>, available: int): (errors: seq<RowError>)
    ensures |errors| == Max(0, |rows| - Max(0, available))
    ensures forall i :: Max(0, available) <= i < |rows| ==> errors[i - Max(0, available)] == LimitError(rows[i].index)
  {
    var free := Max(0, available);
    if free >= |rows| then [] else
      var tail := rows[free..];
      seq(|tail|, k requires 0 <= k < |tail| => LimitError(tail[k].index))
  }

  // One error per row and field, by row

  function FieldKey(e: RowError): (int, string) { (e.index, if e.field.Some? then e.field.value else "") }

  predicate HasKey(errors: seq<RowError>, k: (int, string)) {
    exists i :: 0 <= i < |errors| && FieldKey(errors[i]) == k
  }

  /** The first error of each row and field. */
  function FirstErrors(errors: seq<RowError>): seq<RowError> {
    if errors == [] then []
    else
      var front, last := errors[..|errors| - 1], errors[|errors| - 1];
      FirstErrors(front) + if HasKey(front, FieldKey(last)) then [] else [last]
  }

  lemma HasKeySnoc(errors: seq<RowError>, e: RowError, k: (int, string))
    ensures HasKey(errors + [e], k) <==> HasKey(errors, k) || FieldKey(e) == k
  {
    var more := errors + [e];
    if HasKey(errors, k) {
      var i :| 0 <= i < |errors| && FieldKey(errors[i]) == k;
      assert FieldKey(more[i]) == k;
    }
    if FieldKey(e) == k {
      assert FieldKey(more[|errors|]) == k;
    }
  }

  /** Each row and field with an error keeps one, and only one. */
  lemma {:induction false} FirstErrorsKeepKeys(errors: seq<RowError>, k: (int, string))
    ensures HasKey(FirstErrors(errors), k) <==> HasKey(errors, k)
  {
    if errors != [] {
      var front, last := errors[..|errors| - 1], errors[|errors| - 1];
      FirstErrorsKeepKeys(front, k);
      HasKeySnoc(front, last, k);
      HasKeySnoc(FirstErrors(front), last, k);
      assert errors == front + [last];
      assert FirstErrors(front) + [] == FirstErrors(front);
    }
  }

  predicate KeysDistinct(errors: seq<RowError>) {
    forall i, j :: 0 <= i < j < |errors| ==> FieldKey(errors[i]) != FieldKey(errors[j])
  }

  lemma {:induction false} FirstErrorsDistinct(errors: seq<RowError>)
    ensures KeysDistinct(FirstErrors(errors))
  {
    if errors != [] {
      var front, last := errors[..|errors| - 1], errors[|errors| - 1];
      FirstErrorsDistinct(front);
      FirstErrorsKeepKeys(front, FieldKey(last));
      if i :| 0 <= i < |FirstErrors(front)| && FieldKey(FirstErrors(front)[i]) == FieldKey(last) {
        assert HasKey(FirstErrors(front), FieldKey(last));
      }
    }
  }

  /** sort((a, b) => a.index - b.index), which is stable: an error goes behind all of its row. */
  function Insert(sorted: seq<RowError>, e: RowError): seq<RowError> {
    if sorted == [] || sorted[|sorted| - 1].index <= e.index then sorted + [e]
    else Insert(sorted[..|sorted| - 1], e) + [sorted[|sorted| - 1]]
  }

  function SortByIndex(errors: seq<RowError>): seq<RowError> {
    if errors == [] then [] else Insert(SortByIndex(errors[..|errors| - 1]), errors[|errors| - 1])
  }

  predicate Sorted(errors: seq<RowError>) {
    forall i, j :: 0 <= i < j < |errors| ==> errors[i].index <= errors[j].index
  }

  /** The errors of one row, in order. */
  function OfRow(errors: seq<RowError>, index: int): seq<RowError> {
    if errors == [] then []
    else
      var last := errors[|errors| - 1];
      OfRow(errors[..|errors| - 1], index) + if last.index == index then [last] else []
  }

  lemma OfRowSnoc(errors: seq<RowError>, e: RowError, index: int)
    ensures OfRow(errors + [e], index) == OfRow(errors, index) + if e.index == index then [e] else []
  {
    assert (errors + [e])[..|errors|] == errors;
  }

  lemma {:induction false} InsertKeepsSorted(sorted: seq<RowError>, e: RowError)
    requires Sorted(sorted)
    ensures Sorted(Insert(sorted, e))
    ensures |Insert(sorted, e)| == |sorted| + 1
    ensures Insert(sorted, e)[|sorted|].index
      == if sorted == [] then e.index else Max(e.index, sorted[|sorted| - 1].index)
    decreases |sorted|
  {
    if !(sorted == [] || sorted[|sorted| - 1].index <= e.index) {
      InsertKeepsSorted(sorted[..|sorted| - 1], e);
    }
  }

  lemma {:induction false} InsertGoesLast(sorted: seq<RowError>, e: RowError, index: int)
    requires Sorted(sorted)
    ensures OfRow(Insert(sorted, e), index) == OfRow(sorted, index) + if e.index == index then [e] else []
    decreases |sorted|
  {
    if sorted == [] || sorted[|sorted| - 1].index <= e.index {
      OfRowSnoc(sorted, e, index);
    } else {
      var front, last := sorted[..|sorted| - 1], sorted[|sorted| - 1];
      InsertGoesLast(front, e, index);
      assert Insert(sorted, e) == Insert(front, e) + [last];
      hide OfRow, Insert, Sorted;
      OfRowSnoc(front, last, index);
      OfRowSnoc(Insert(front, e), last, index);
      assert front + [last] == sorted;
      var kept, added := OfRow(front, index), if e.index == index then [e] else [];
      assert OfRow(Insert(front, e), index) == kept + added;
      assert e.index == index ==> last.index != index;
    }
  }

  lemma {:induction false} SortSorts(errors: seq<RowError>)
    ensures Sorted(SortByIndex(errors)) && |SortByIndex(errors)| == |errors|
  {
    if errors != [] {
      hide Insert, Sorted;
      SortSorts(errors[..|errors| - 1]);
      InsertKeepsSorted(SortByIndex(errors[..|errors| - 1]), errors[|errors| - 1]);
    } else {
      assert SortByIndex(errors) == [];
    }
  }

  /** Sorting orders the errors by row and keeps those of one row in their order. */
  lemma {:induction false} SortIsStable(errors: seq<RowError>, index: int)
    ensures Sorted(SortByIndex(errors)) && |SortByIndex(errors)| == |errors|
    ensures OfRow(SortByIndex(errors), index) == OfRow(errors, index)
  {
    hide Insert, Sorted;
    SortSorts(errors);
    if errors != [] {
      var front, last := errors[..|errors| - 1], errors[|errors| - 1];
      SortIsStable(front, index);
      InsertGoesLast(SortByIndex(front), last, index);
    }
  }

  lemma FirstErrorsSnoc(errors: seq<RowError>, e: RowError)
    ensures FirstErrors(errors + [e]) == FirstErrors(errors) + if HasKey(errors, FieldKey(e)) then [] else [e]
  {
    assert (errors + [e])[..|errors|] == errors;
  }

  lemma NoKeys()
    ensures forall k :: !HasKey([], k)
  {
  }

  method DedupeErrors(errors: seq<RowError>) returns (deduped: seq<RowError>)
    ensures deduped == SortByIndex(FirstErrors(errors))
  {
    hide SortByIndex, HasKey;
    var seen: set<(int, string)> := {};
    var kept: seq<RowError> := [];
    assert forall k :: !HasKey(errors[..0], k) by { NoKeys(); }
    for i := 0 to |errors|
      invariant kept == FirstErrors(errors[..i])
      invariant forall k :: k in seen <==> HasKey(errors[..i], k)
    {
      assert errors[..i + 1] == errors[..i] + [errors[i]];
      FirstErrorsSnoc(errors[..i], errors[i]);
      forall k { HasKeySnoc(errors[..i], errors[i], k); }
      if FieldKey(errors[i]) !in seen {
        seen := seen + {FieldKey(errors[i])};
        kept := kept + [errors[i]];
      }
    }
    assert errors[..|errors|] == errors;
    deduped := SortByIndex(kept);
  }

  /** No error is lost altogether: there is one left if and only if there was one. */
  lemma DedupeKeepsRows(errors: seq<RowError>)
    ensures SortByIndex(FirstErrors(errors)) == [] <==> errors == []
  {
    SortSorts(FirstErrors(errors));
    if errors != [] {
      FirstErrorsKeepKeys(errors, FieldKey(errors[0]));
      assert HasKey(errors, FieldKey(errors[0]));
    }
  }

  // A bulk run

  function ParsedRows<T>(items: seq<Item<T>>): (rows: seq<ParsedRow<T>>)
    ensures forall i :: 0 <= i < |rows| ==> 0 <= rows[i].index < |items|
    ensures Numbered(rows)
  {
    if items == [] then []
    else
      var last := |items| - 1;
      ParsedRows(items[..last]) + if items[last].Valid? then [ParsedRow(last, items[last].data)] else []
  }

  function IssueErrors(index: int, issues: seq<Option<string>>): (errors: seq<RowError>)
    ensures |errors| == |issues|
  {
    seq(|issues|, k requires 0 <= k < |issues| => RowError(index, issues[k], "INVALID_FIELD", None))
  }

  function ParseErrors<T>(items: seq<Item<T>>): seq<RowError> {
    if items == [] then []
    else
      var last := |items| - 1;
      ParseErrors(items[..last]) + if items[last].Invalid? then IssueErrors(last, items[last].issues) else []
  }

  /** Zod reports at least one issue for an item that does not parse. */
  predicate IssuesReported<T>(items: seq<Item<T>>) {
    forall i :: 0 <= i < |items| && items[i].Invalid? ==> items[i].issues != []
  }

  /** Without parse errors every item is a row, at its own position. */
  lemma {:induction false} NoErrorsAllParsed<T>(items: seq<Item<T>>)
    requires IssuesReported(items) && ParseErrors(items) == []
    ensures |ParsedRows(items)| == |items|
    ensures forall i :: 0 <= i < |items| ==> items[i].Valid? && ParsedRows(items)[i] == ParsedRow(i, items[i].data)
  {
    if items != [] {
      NoErrorsAllParsed(items[..|items| - 1]);
    }
  }

  /** The rows are passed to `create` in order; `answers` says how each of these calls ends. */
  method CreateRows<T>(rows: seq<ParsedRow<T>>, answers: seq<Option<string>>)
    returns (calls: seq<T>, created: seq<int>, failed: seq<RowError>)
    requires |answers| == |rows|
    ensures |calls| == |rows| && forall k :: 0 <= k < |rows| ==> calls[k] == rows[k].data
    ensures created == CreatedOf(rows, answers) && failed == FailedOf(rows, answers)
  {
    calls, created, failed := [], [], [];
    for k := 0 to |rows|
      invariant |calls| == k && forall j :: 0 <= j < k ==> calls[j] == rows[j].data
      invariant created == CreatedOf(rows[..k], answers[..k]) && failed == FailedOf(rows[..k], answers[..k])
    {
      assert rows[..k + 1][..k] == rows[..k] && answers[..k + 1][..k] == answers[..k];
      calls := calls + [rows[k].data];
      match answers[k]
      case None => created := created + [rows[k].index];
      case Some(code) => failed := failed + [RowError(rows[k].index, None, code, None)];
    }
    assert rows[..|rows|] == rows && answers[..|rows|] == answers;
  }

  function CreatedOf<T>(rows: seq<ParsedRow<T>>, answers: seq<Option<string>>): seq<int>
    requires |answers| == |rows|
    decreases |rows|
  {
    if rows == [] then []
    else
      var last := |rows| - 1;
      CreatedOf(rows[..last], answers[..last]) + if answers[last].None? then [rows[last].index] else []
  }

  function FailedOf<T>(rows: seq<ParsedRow<T>>, answers: seq<Option<string>>): seq<RowError>
    requires |answers| == |rows|
    decreases |rows|
  {
    if rows == [] then []
    else
      var last := |rows| - 1;
      FailedOf(rows[..last], answers[..last])
        + if answers[last].Some? then [RowError(rows[last].index, None, answers[last].value, None)] else []
  }

  /** Created and failed rows split the rows between them, according to the answers. */
  lemma {:induction false} CreatedAndFailedPartition<T>(rows: seq<ParsedRow<T>>, answers: seq<Option<string>>, k: nat)
    requires |answers| == |rows| && Numbered(rows) && k < |rows|
    ensures |CreatedOf(rows, answers)| + |FailedOf(rows, answers)| == |rows|
    ensures rows[k].index in CreatedOf(rows, answers) <==> answers[k].None?
    ensures Flagged(FailedOf(rows, answers), rows[k].index) <==> answers[k].Some?
  {
    var last := |rows| - 1;
    CountsAddUp(rows, answers);
    if k < last {
      CreatedAndFailedPartition(rows[..last], answers[..last], k);
    } else {
      OnlyTheirRows(rows[..last], answers[..last], rows[k].index);
    }
    FlaggedSnoc(FailedOf(rows[..last], answers[..last]),
      RowError(rows[last].index, None, if answers[last].Some? then answers[last].value else "", None), rows[k].index);
  }

  lemma FlaggedSnoc(errors: seq<RowError>, e: RowError, index: int)
    ensures Flagged(errors + [e], index) <==> Flagged(errors, index) || e.index == index
    ensures Flagged(errors + [], index) <==> Flagged(errors, index)
  {
    var more := errors + [e];
    assert errors + [] == errors;
    if Flagged(errors, index) {
      var i :| 0 <= i < |errors| && errors[i].index == index;
      assert more[i].index == index;
    }
    if e.index == index {
      assert more[|errors|].index == index;
    }
  }

  lemma {:induction false} CountsAddUp<T>(rows: seq<ParsedRow<T>>, answers: seq<Option<string>>)
    requires |answers| == |rows|
    ensures |CreatedOf(rows, answers)| + |FailedOf(rows, answers)| == |rows|
    decreases |rows|
  {
    if rows != [] {
      CountsAddUp(rows[..|rows| - 1], answers[..|rows| - 1]);
    }
  }

  lemma {:induction false} OnlyTheirRows<T>(rows: seq<ParsedRow<T>>, answers: seq<Option<string>>, index: int)
    requires |answers| == |rows| && forall k :: 0 <= k < |rows| ==> rows[k].index != index
    ensures index !in CreatedOf(rows, answers) && !Flagged(FailedOf(rows, answers), index)
    decreases |rows|
  {
    if rows != [] {
      var last := |rows| - 1;
      OnlyTheirRows(rows[..last], answers[..last], index);
      FlaggedSnoc(FailedOf(rows[..last], answers[..last]),
        RowError(rows[last].index, None, if answers[last].Some? then answers[last].value else "", None), index);
    }
  }

  /** The rules over the whole batch. `refs` are the errors of references (category, parents), `existing` the
      keys already in the academy, `available` the free places of the plan where there is a limit. */
  datatype Rules<!T> = Rules(
    refs: seq<RowError>, key: T -> string, field: string, existing: set<string>, takenCode: string,
    available: Option<int>)

  function Taken<T>(rows: seq<ParsedRow<T>>, rules: Rules<T>): seq<RowError> {
    if rows == [] then []
    else
      var last := rows[|rows| - 1];
      Taken(rows[..|rows| - 1], rules)
        + if rules.key(last.data) in rules.existing
          then [RowError(last.index, Some(rules.field), rules.takenCode, None)] else []
  }

  function BatchErrors<T>(rows: seq<ParsedRow<T>>, rules: Rules<T>): seq<RowError> {
    rules.refs + Duplicates(rows, rules.key, rules.field) + Taken(rows, rules)
      + if rules.available.Some? then OverPlanLimit(rows, rules.available.value) else []
  }

  function ValidationErrors<T>(items: seq<Item<T>>, rules: Rules<T>): seq<RowError> {
    SortByIndex(FirstErrors(ParseErrors(items) + BatchErrors(ParsedRows(items), rules)))
  }

  function IndexesOf(errors: seq<RowError>): set<int> { set e | e in errors :: e.index }

  /** `answers` is only consulted when rows are created, and then has one answer for each item. */
  method RunBulk<T>(items: seq<Item<T>>, dryRun: bool, rules: Rules<T>, answers: seq<Option<string>>)
    returns (calls: seq<T>, result: BulkResult)
    requires IssuesReported(items)
    requires |answers| == |items|
    ensures dryRun || ValidationErrors(items, rules) != [] ==>
      && calls == [] && result.created == [] && result.errors == ValidationErrors(items, rules)
      && result.summary == Summary(|items|, 0, |IndexesOf(result.errors)|)
    ensures !dryRun && ValidationErrors(items, rules) == [] ==>
      && |calls| == |items| && (forall i :: 0 <= i < |items| ==> items[i].Valid? && calls[i] == items[i].data)
      && (forall i :: 0 <= i < |items| ==>
            (i in result.created <==> answers[i].None?) && (Flagged(result.errors, i) <==> answers[i].Some?))
      && |result.created| + |result.errors| == |items|
      && result.summary == Summary(|items|, |result.created|, |result.errors|)
    ensures result.dryRun == dryRun
  {
    var parsed: seq<ParsedRow<T>>, errors: seq<RowError> := [], [];
    for i := 0 to |items|
      invariant parsed == ParsedRows(items[..i]) && errors == ParseErrors(items[..i])
    {
      assert items[..i + 1][..i] == items[..i];
      match items[i]
      case Valid(data) => parsed := parsed + [ParsedRow(i, data)];
      case Invalid(issues) => errors := errors + IssueErrors(i, issues);
    }
    assert items[..|items|] == items;
    ghost var parseErrors := errors;
    errors := errors + BatchErrors(parsed, rules);
    var validationErrors := DedupeErrors(errors);
    if |validationErrors| > 0 || dryRun {
      return [], BulkResult(dryRun, [], validationErrors, Summary(|items|, 0, |IndexesOf(validationErrors)|));
    }
    DedupeKeepsRows(errors);
    assert parseErrors == [];
    NoErrorsAllParsed(items);
    var created, createErrors;
    calls, created, createErrors := CreateRows(parsed, answers);
    CountsAddUp(parsed, answers);
    forall i | 0 <= i < |items|
      ensures (i in created <==> answers[i].None?) && (Flagged(createErrors, i) <==> answers[i].Some?)
    {
      CreatedAndFailedPartition(parsed, answers, i);
    }
    result := BulkResult(false, created, createErrors, Summary(|items|, |created|, |createErrors|));
  }

  /** When the batch passes, the rows have pairwise different keys, none of them already in the academy. Where
      there is a limit of `max`, they stay within it together with the `before` that are there. */
  lemma ValidBatchFits<T>(items: seq<Item<T>>, rules: Rules<T>, before: nat, max: int)
    requires IssuesReported(items) && ValidationErrors(items, rules) == []
    ensures forall i :: 0 <= i < |items| ==> items[i].Valid? && rules.key(items[i].data) !in rules.existing
    ensures forall i, j :: 0 <= i < j < |items| ==> items[i].Valid? && items[j].Valid? ==>
      rules.key(items[i].data) != rules.key(items[j].data)
    ensures rules.available == Some(max - before) ==> before + |items| <= Max(max, before)
  {
    PassedChecks(items, rules);
    NoErrorsAllParsed(items);
    hide ParsedRows, ParseErrors, BatchErrors, Duplicates, Taken, ValidationErrors;
    var rows := ParsedRows(items);
    forall i | 0 <= i < |items| ensures rules.key(items[i].data) !in rules.existing {
      NothingTaken(rows, rules, i);
    }
    forall i, j | 0 <= i < j < |items| ensures rules.key(items[i].data) != rules.key(items[j].data) {
      UnflaggedKeysDiffer(rows, rules.key, rules.field, i, j);
    }
  }

  // Exactly which rows fail the validation, and why

  /** The valid items among the first i: the position of item i among the parsed rows. */
  function ValidBefore<T>(items: seq<Item<T>>, i: nat): nat
    requires i <= |items|
  {
    if i == 0 then 0 else ValidBefore(items, i - 1) + if items[i - 1].Valid? then 1 else 0
  }

  lemma {:induction false} PositionsOfRows<T>(items: seq<Item<T>>, i: nat)
    requires i <= |items|
    ensures |ParsedRows(items[..i])| == ValidBefore(items, i) && ParsedRows(items[..i]) <= ParsedRows(items)
    ensures i < |items| && items[i].Valid? ==>
      ValidBefore(items, i) < |ParsedRows(items)|
      && ParsedRows(items)[ValidBefore(items, i)] == ParsedRow(i, items[i].data)
    decreases i
  {
    if i > 0 {
      PositionsOfRows(items, i - 1);
      assert items[..i][..i - 1] == items[..i - 1];
    }
    ParsedPrefix(items, i);
    if i < |items| {
      ParsedPrefix(items, i + 1);
      assert items[..i + 1][..i] == items[..i];
    }
  }

  lemma {:induction false} ParsedPrefix<T>(items: seq<Item<T>>, i: nat)
    requires i <= |items|
    ensures ParsedRows(items[..i]) <= ParsedRows(items)
    decreases |items|
  {
    if i < |items| {
      var front := items[..|items| - 1];
      ParsedPrefix(front, i);
      assert front[..i] == items[..i];
    } else {
      assert items[..i] == items;
    }
  }

  /** Each parsed row is an item that is valid. */
  lemma {:induction false} RowsAreItems<T>(items: seq<Item<T>>, k: nat)
    requires k < |ParsedRows(items)|
    ensures var row := ParsedRows(items)[k];
      && 0 <= row.index < |items| && items[row.index] == Valid(row.data) && ValidBefore(items, row.index) == k
  {
    var last := |items| - 1;
    if k < |ParsedRows(items[..last])| {
      RowsAreItems(items[..last], k);
      var i := ParsedRows(items[..last])[k].index;
      SameBefore(items, last, i);
    } else {
      PositionsOfRows(items, last);
    }
  }

  lemma {:induction false} SameBefore<T>(items: seq<Item<T>>, n: nat, i: nat)
    requires i <= n <= |items|
    ensures ValidBefore(items[..n], i) == ValidBefore(items, i)
    decreases i
  {
    if i > 0 {
      SameBefore(items, n, i - 1);
    }
  }

  lemma {:induction false} EarlierItemEarlierRow<T>(items: seq<Item<T>>, j: nat, i: nat)
    requires j < i <= |items| && items[j].Valid?
    ensures ValidBefore(items, j) < ValidBefore(items, i)
    decreases i
  {
    if j < i - 1 {
      EarlierItemEarlierRow(items, j, i - 1);
    }
  }

  /** An earlier item is valid and has the key of this one. */
  predicate Repeats<T>(items: seq<Item<T>>, key: T -> string, i: nat)
    requires i < |items| && items[i].Valid?
  {
    exists j :: 0 <= j < i && items[j].Valid? && key(items[j].data) == key(items[i].data)
  }

  lemma DuplicateIff<T>(items: seq<Item<T>>, rules: Rules<T>, i: nat)
    requires i < |items|
    ensures Flagged(Duplicates(ParsedRows(items), rules.key, rules.field), i) <==>
      items[i].Valid? && Repeats(items, rules.key, i)
  {
    var rows := ParsedRows(items);
    PositionsOfRows(items, i);
    if items[i].Valid? {
      var p := ValidBefore(items, i);
      FlaggedIffRepeated(rows, rules.key, rules.field, p);
      if j :| 0 <= j < i && items[j].Valid? && rules.key(items[j].data) == rules.key(items[i].data) {
        PositionsOfRows(items, j);
        EarlierItemEarlierRow(items, j, i);
        assert rules.key(rows[ValidBefore(items, j)].data) == rules.key(rows[p].data);
      }
      if q :| 0 <= q < p && rules.key(rows[q].data) == rules.key(rows[p].data) {
        RowsAreItems(items, q);
        assert rows[q].index < rows[p].index;
      }
    } else if Flagged(Duplicates(rows, rules.key, rules.field), i) {
      FlagsAreOfRows(rows, rules.key, rules.field, i);
      var k :| 0 <= k < |rows| && rows[k].index == i;
      RowsAreItems(items, k);
      assert false;
    }
  }

  lemma {:induction false} TakenIff<T>(rows: seq<ParsedRow<T>>, rules: Rules<T>, index: int)
    ensures Flagged(Taken(rows, rules), index) <==>
      exists k :: 0 <= k < |rows| && rows[k].index == index && rules.key(rows[k].data) in rules.existing
  {
    if rows != [] {
      var front, last := rows[..|rows| - 1], rows[|rows| - 1];
      TakenIff(front, rules, index);
      FlaggedSnoc(Taken(front, rules), RowError(last.index, Some(rules.field), rules.takenCode, None), index);
      hide Flagged;
      assert forall k :: 0 <= k < |front| ==> front[k] == rows[k];
    }
  }

  lemma LimitIff<T>(rows: seq<ParsedRow<T>>, available: int, index: int)
    ensures Flagged(OverPlanLimit(rows, available), index) <==>
      exists k :: 0 <= k < |rows| && rows[k].index == index && k >= available
  {
    var errors, free := OverPlanLimit(rows, available), Max(0, available);
    if e :| 0 <= e < |errors| && errors[e].index == index {
      assert errors[e] == LimitError(rows[free + e].index);
    }
    if k :| 0 <= k < |rows| && rows[k].index == index && k >= available {
      assert errors[k - free].index == index;
    }
  }

  lemma {:induction false} ParseErrorsIff<T>(items: seq<Item<T>>, index: int)
    requires IssuesReported(items)
    ensures Flagged(ParseErrors(items), index) <==> 0 <= index < |items| && items[index].Invalid?
  {
    if items != [] {
      var last := |items| - 1;
      ParseErrorsIff(items[..last], index);
      var more := if items[last].Invalid? then IssueErrors(last, items[last].issues) else [];
      FlaggedInParts(ParseErrors(items[..last]), more, index);
      if items[last].Invalid? {
        assert more[0].index == last;
      }
    }
  }

  lemma FlaggedByKey(errors: seq<RowError>, index: int)
    ensures Flagged(errors, index) <==> exists f :: HasKey(errors, (index, f))
  {
    if e :| 0 <= e < |errors| && errors[e].index == index {
      assert HasKey(errors, (index, FieldKey(errors[e]).1));
    }
    if f :| HasKey(errors, (index, f)) {
      var e :| 0 <= e < |errors| && FieldKey(errors[e]) == (index, f);
      assert errors[e].index == index;
    }
  }

  lemma DedupeKeepsFlags(errors: seq<RowError>, index: int)
    ensures Flagged(SortByIndex(FirstErrors(errors)), index) <==> Flagged(errors, index)
  {
    FlaggedByKey(errors, index);
    FlaggedByKey(FirstErrors(errors), index);
    forall f { FirstErrorsKeepKeys(errors, (index, f)); }
    SortKeepsErrors(FirstErrors(errors));
    FlaggedByMembers(SortByIndex(FirstErrors(errors)), FirstErrors(errors), index);
  }

  lemma FlaggedByMembers(a: seq<RowError>, b: seq<RowError>, index: int)
    requires multiset(a) == multiset(b)
    ensures Flagged(a, index) <==> Flagged(b, index)
  {
    if e :| 0 <= e < |a| && a[e].index == index { assert a[e] in multiset(b); }
    if e :| 0 <= e < |b| && b[e].index == index { assert b[e] in multiset(a); }
  }

  lemma {:induction false} SortKeepsErrors(errors: seq<RowError>)
    ensures multiset(SortByIndex(errors)) == multiset(errors)
  {
    if errors != [] {
      var front, last := errors[..|errors| - 1], errors[|errors| - 1];
      SortKeepsErrors(front);
      InsertKeepsErrors(SortByIndex(front), last);
      assert errors == front + [last];
    }
  }

  lemma {:induction false} InsertKeepsErrors(sorted: seq<RowError>, e: RowError)
    ensures multiset(Insert(sorted, e)) == multiset(sorted) + multiset{e}
    decreases |sorted|
  {
    if sorted != [] && sorted[|sorted| - 1].index > e.index {
      InsertKeepsErrors(sorted[..|sorted| - 1], e);
      assert sorted == sorted[..|sorted| - 1] + [sorted[|sorted| - 1]];
    }
  }

  /** What is wrong with item i, without looking at any list of errors. */
  predicate Fails<T>(items: seq<Item<T>>, rules: Rules<T>, i: nat)
    requires i < |items|
  {
    || items[i].Invalid?
    || Flagged(rules.refs, i)
    || Repeats(items, rules.key, i)
    || rules.key(items[i].data) in rules.existing
    || (rules.available.Some? && ValidBefore(items, i) >= rules.available.value)
  }

  /** An item is reported if and only if it does not parse, has a bad reference, repeats the key of an earlier
      one, has the key of something that exists, or comes after the last free place of the plan. */
  lemma ReportedIff<T>(items: seq<Item<T>>, rules: Rules<T>, i: nat)
    requires IssuesReported(items) && i < |items|
    ensures Flagged(ValidationErrors(items, rules), i) <==> Fails(items, rules, i)
  {
    var rows := ParsedRows(items);
    PositionsOfRows(items, i);
    ParseErrorsIff(items, i);
    DuplicateIff(items, rules, i);
    TakenIff(rows, rules, i);
    OnlyRowOf(items, i);
    var limit := if rules.available.Some? then OverPlanLimit(rows, rules.available.value) else [];
    if rules.available.Some? { LimitIff(rows, rules.available.value, i); }
    DedupeKeepsFlags(ParseErrors(items) + BatchErrors(rows, rules), i);
    hide SortByIndex, FirstErrors, ParseErrors, ParsedRows, Duplicates, Taken, Repeats, OverPlanLimit, Flagged;
    var batch := rules.refs + Duplicates(rows, rules.key, rules.field) + Taken(rows, rules);
    FlaggedInParts(ParseErrors(items), BatchErrors(rows, rules), i);
    FlaggedInParts(batch, limit, i);
    FlaggedInParts(rules.refs + Duplicates(rows, rules.key, rules.field), Taken(rows, rules), i);
    FlaggedInParts(rules.refs, Duplicates(rows, rules.key, rules.field), i);
    NothingFlagged(i);
  }

  lemma NothingFlagged(i: int)
    ensures !Flagged([], i)
  {
  }

  /** The rows with the index of item i: one if it is valid, at its position, and none otherwise. */
  lemma OnlyRowOf<T>(items: seq<Item<T>>, i: nat)
    requires i < |items|
    ensures forall k :: 0 <= k < |ParsedRows(items)| && ParsedRows(items)[k].index == i ==>
      items[i] == Valid(ParsedRows(items)[k].data) && ValidBefore(items, i) == k
  {
    forall k | 0 <= k < |ParsedRows(items)| && ParsedRows(items)[k].index == i
      ensures items[i] == Valid(ParsedRows(items)[k].data) && ValidBefore(items, i) == k
    {
      RowsAreItems(items, k);
    }
  }

  /** Why an error is there, told from the items: the issue of the schema, the reference, the first item with
      the same key, the existing key, or the plan. */
  predicate Explained<T>(items: seq<Item<T>>, rules: Rules<T>, e: RowError) {
    || e in rules.refs
    || (0 <= e.index < |items| &&
         match items[e.index]
         case Invalid(issues) => e.code == "INVALID_FIELD" && e.field in issues && e.repeats == None
         case Valid(data) =>
           || (e.code == "DUPLICATE_IN_BATCH" && e.field == Some(rules.field) && e.repeats.Some?
               && FirstItemWith(items, rules.key, rules.key(data), e.repeats.value) && e.repeats.value < e.index)
           || (e.code == rules.takenCode && e.field == Some(rules.field) && e.repeats == None
               && rules.key(data) in rules.existing)
           || (e.code == "PLAN_LIMIT_EXCEEDED" && e.field == None && e.repeats == None && rules.available.Some?
               && ValidBefore(items, e.index) >= rules.available.value))
  }

  predicate FirstItemWith<T>(items: seq<Item<T>>, key: T -> string, k: string, i: int) {
    && 0 <= i < |items| && items[i].Valid? && key(items[i].data) == k
    && forall j :: 0 <= j < i && items[j].Valid? ==> key(items[j].data) != k
  }

  lemma {:induction false} FirstRowWithKey<T>(rows: seq<ParsedRow<T>>, key: T -> string, k: string)
    ensures match FirstWithKey(rows, key, k)
      case None => forall i :: 0 <= i < |rows| ==> key(rows[i].data) != k
      case Some(index) =>
        exists i :: 0 <= i < |rows| && IsFirstRow(rows, key, k, i) && rows[i].index == index
  {
    if rows != [] {
      var rest := rows[1..];
      FirstRowWithKey(rest, key, k);
      if key(rows[0].data) == k {
        assert IsFirstRow(rows, key, k, 0);
      } else if FirstWithKey(rest, key, k).Some? {
        var i :| 0 <= i < |rest| && IsFirstRow(rest, key, k, i) && rest[i].index == FirstWithKey(rest, key, k).value;
        assert forall j :: 0 < j <= i ==> rows[j] == rest[j - 1];
        assert IsFirstRow(rows, key, k, i + 1);
      } else {
        assert forall i :: 0 < i < |rows| ==> rows[i] == rest[i - 1];
      }
    }
  }

  predicate IsFirstRow<T>(rows: seq<ParsedRow<T>>, key: T -> string, k: string, i: nat)
    requires i < |rows|
  {
    key(rows[i].data) == k && forall j :: 0 <= j < i ==> key(rows[j].data) != k
  }

  /** The first parsed row with a key is the first valid item with it. */
  lemma FirstRowIsFirstItem<T>(items: seq<Item<T>>, key: T -> string, k: string, p: nat)
    requires p < |ParsedRows(items)| && IsFirstRow(ParsedRows(items), key, k, p)
    ensures FirstItemWith(items, key, k, ParsedRows(items)[p].index)
  {
    var rows := ParsedRows(items);
    var i := rows[p].index;
    RowsAreItems(items, p);
    forall j | 0 <= j < i && items[j].Valid? ensures key(items[j].data) != k {
      PositionsOfRows(items, j);
      EarlierItemEarlierRow(items, j, i);
      assert key(rows[ValidBefore(items, j)].data) != k;
    }
  }

  lemma {:induction false} DuplicatesExplained<T>(items: seq<Item<T>>, rules: Rules<T>, n: nat, e: RowError)
    requires n <= |ParsedRows(items)| && e in Duplicates(ParsedRows(items)[..n], rules.key, rules.field)
    ensures Explained(items, rules, e)
  {
    var rows := ParsedRows(items);
    var front, last := rows[..n][..n - 1], rows[..n][n - 1];
    assert front == rows[..n - 1];
    if e in Duplicates(front, rules.key, rules.field) {
      DuplicatesExplained(items, rules, n - 1, e);
    } else {
      var k := rules.key(last.data);
      FirstRowWithKey(front, rules.key, k);
      var p :| 0 <= p < |front| && IsFirstRow(front, rules.key, k, p)
        && front[p].index == FirstWithKey(front, rules.key, k).value;
      assert forall j :: 0 <= j <= p ==> front[j] == rows[j];
      assert IsFirstRow(rows, rules.key, k, p);
      FirstRowIsFirstItem(items, rules.key, k, p);
      RowsAreItems(items, n - 1);
    }
  }

  lemma {:induction false} TakenExplained<T>(items: seq<Item<T>>, rules: Rules<T>, n: nat, e: RowError)
    requires n <= |ParsedRows(items)| && e in Taken(ParsedRows(items)[..n], rules)
    ensures Explained(items, rules, e)
  {
    var rows := ParsedRows(items);
    assert rows[..n][..n - 1] == rows[..n - 1];
    if e in Taken(rows[..n - 1], rules) {
      TakenExplained(items, rules, n - 1, e);
    } else {
      RowsAreItems(items, n - 1);
    }
  }

  lemma LimitExplained<T>(items: seq<Item<T>>, rules: Rules<T>, e: RowError)
    requires rules.available.Some? && e in OverPlanLimit(ParsedRows(items), rules.available.value)
    ensures Explained(items, rules, e)
  {
    var rows, free := ParsedRows(items), Max(0, rules.available.value);
    var errors := OverPlanLimit(rows, rules.available.value);
    var i :| 0 <= i < |errors| && errors[i] == e;
    assert errors[free + i - free] == LimitError(rows[free + i].index);
    RowsAreItems(items, free + i);
  }

  lemma {:induction false} ParseExplained<T>(items: seq<Item<T>>, n: nat, e: RowError)
    requires n <= |items| && e in ParseErrors(items[..n])
    ensures 0 <= e.index < |items| && items[e.index].Invalid? && e.code == "INVALID_FIELD" && e.repeats == None
    ensures e.field in items[e.index].issues
  {
    assert items[..n][..n - 1] == items[..n - 1];
    if e in ParseErrors(items[..n - 1]) {
      ParseExplained(items, n - 1, e);
    }
  }

  /** Every error that is reported has one of these causes, and no row and field is reported twice. */
  lemma ReportedIsExplained<T>(items: seq<Item<T>>, rules: Rules<T>, e: RowError)
    requires e in ValidationErrors(items, rules)
    ensures Explained(items, rules, e)
  {
    var rows := ParsedRows(items);
    var all := ParseErrors(items) + BatchErrors(rows, rules);
    SortKeepsErrors(FirstErrors(all));
    hide FirstErrors, SortByIndex, ParseErrors, ParsedRows, BatchErrors;
    assert e in multiset(FirstErrors(all));
    FirstErrorsAmong(all, e);
    if e in ParseErrors(items) {
      assert items[..|items|] == items;
      ParseExplained(items, |items|, e);
    } else {
      BatchIsExplained(items, rules, e);
    }
  }

  lemma BatchIsExplained<T>(items: seq<Item<T>>, rules: Rules<T>, e: RowError)
    requires e in BatchErrors(ParsedRows(items), rules)
    ensures Explained(items, rules, e)
  {
    var rows := ParsedRows(items);
    assert rows[..|rows|] == rows;
    hide ParsedRows, Duplicates, Taken, OverPlanLimit;
    if e in rules.refs {
    } else if e in Duplicates(rows, rules.key, rules.field) {
      DuplicatesExplained(items, rules, |rows|, e);
    } else if e in Taken(rows, rules) {
      TakenExplained(items, rules, |rows|, e);
    } else {
      LimitExplained(items, rules, e);
    }
  }

  lemma {:induction false} FirstErrorsAmong(errors: seq<RowError>, e: RowError)
    requires e in FirstErrors(errors)
    ensures e in errors
  {
    var front, last := errors[..|errors| - 1], errors[|errors| - 1];
    if e in FirstErrors(front) {
      FirstErrorsAmong(front, e);
    }
  }

  /** A row that fails is reported with the code of its answer. */
  lemma {:induction false} FailureIsReported<T>(rows: seq<ParsedRow<T>>, answers: seq<Option<string>>, k: nat)
    requires |answers| == |rows| && k < |rows| && answers[k].Some?
    ensures RowError(rows[k].index, None, answers[k].value, None) in FailedOf(rows, answers)
    decreases |rows|
  {
    if k < |rows| - 1 {
      FailureIsReported(rows[..|rows| - 1], answers[..|rows| - 1], k);
    }
  }

  /** No error in the end means no error of any kind. */
  lemma PassedChecks<T>(items: seq<Item<T>>, rules: Rules<T>)
    requires ValidationErrors(items, rules) == []
    ensures ParseErrors(items) == []
    ensures var rows := ParsedRows(items);
      && Duplicates(rows, rules.key, rules.field) == [] && Taken(rows, rules) == []
      && (rules.available.Some? ==> OverPlanLimit(rows, rules.available.value) == [])
  {
    DedupeKeepsRows(ParseErrors(items) + BatchErrors(ParsedRows(items), rules));
    hide SortByIndex, FirstErrors, ParseErrors, ParsedRows, Duplicates, Taken;
    assert ParseErrors(items) == [] && BatchErrors(ParsedRows(items), rules) == [];
  }

  lemma {:induction false} NothingTaken<T>(rows: seq<ParsedRow<T>>, rules: Rules<T>, i: nat)
    requires Taken(rows, rules) == [] && i < |rows|
    ensures rules.key(rows[i].data) !in rules.existing
  {
    if i < |rows| - 1 {
      NothingTaken(rows[..|rows| - 1], rules, i);
    }
  }
}

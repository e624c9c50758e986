/** A player's analysis: the same actions counted by code, by match, by month and by radar dimension. */
module CoachAnalysis {
  import opened Basics
  import opened Results

  // Counting by a key

  /** Everything counted. */
  function Total<K>(ps: seq<(K, nat)>): nat {
    if ps == [] then 0 else Total(ps[..|ps| - 1]) + ps[|ps| - 1].1
  }

  /** What is counted under one key. */
  function CountOf<K(==)>(ps: seq<(K, nat)>, key: K): nat {
    if ps == [] then 0
    else CountOf(ps[..|ps| - 1], key) + if ps[|ps| - 1].0 == key then ps[|ps| - 1].1 else 0
  }

  function SumOver<K(==)>(keys: seq<K>, ps: seq<(K, nat)>): nat {
    if keys == [] then 0 else SumOver(keys[..|keys| - 1], ps) + CountOf(ps, keys[|keys| - 1])
  }

  predicate AllDiffer<K(==)>(keys: seq<K>) { forall i, j :: 0 <= i < j < |keys| ==> keys[i] != keys[j] }

  predicate Covers<K(==)>(keys: seq<K>, ps: seq<(K, nat)>) {
    forall i :: 0 <= i < |ps| && ps[i].1 > 0 ==> ps[i].0 in keys
  }

  lemma {:induction false} SumOverNothing<K>(keys: seq<K>)
    ensures SumOver(keys, []) == 0
  {
    if keys != [] {
      SumOverNothing(keys[..|keys| - 1]);
    }
  }

  /** One more count raises the sum by its amount if its key is listed. */
  lemma {:induction false} SumOverOneMore<K>(keys: seq<K>, ps: seq<(K, nat)>)
    requires AllDiffer(keys) && ps != []
    ensures SumOver(keys, ps) == SumOver(keys, ps[..|ps| - 1]) + if ps[|ps| - 1].0 in keys then ps[|ps| - 1].1 else 0
  {
    if keys != [] {
      var front, last := keys[..|keys| - 1], keys[|keys| - 1];
      SumOverOneMore(front, ps);
      assert keys == front + [last];
    }
  }

  /** Different keys that cover all counts add up to the total: whatever the key. */
  lemma {:induction false} KeysAddUp<K>(keys: seq<K>, ps: seq<(K, nat)>)
    requires AllDiffer(keys) && Covers(keys, ps)
    ensures SumOver(keys, ps) == Total(ps)
  {
    if ps == [] {
      SumOverNothing(keys);
    } else {
      assert Covers(keys, ps[..|ps| - 1]);
      KeysAddUp(keys, ps[..|ps| - 1]);
      SumOverOneMore(keys, ps);
      assert ps[|ps| - 1].1 > 0 ==> ps[|ps| - 1].0 in keys;
    }
  }

  // Rows

  datatype Impact = Positive | Negative | Neutral

  /** One row of the grouped query: a player's counted actions of one code in one match. */
  datatype Agg = Agg(matchId: int, month: string, code: int, name: string, impact: Impact, count: nat)

  datatype ByCode = ByCode(code: int, name: string, impact: Impact, count: nat)

  datatype Attendance = Attendance(matchId: int, month: string)

  function CodeCounts(aggs: seq<Agg>): (ps: seq<(int, nat)>)
    ensures |ps| == |aggs|
  {
    seq(|aggs|, i requires 0 <= i < |aggs| => (aggs[i].code, aggs[i].count))
  }

  function MatchCounts(aggs: seq<Agg>): (ps: seq<(int, nat)>)
    ensures |ps| == |aggs|
  {
    seq(|aggs|, i requires 0 <= i < |aggs| => (aggs[i].matchId, aggs[i].count))
  }

  function MonthCounts(aggs: seq<Agg>): (ps: seq<(string, nat)>)
    ensures |ps| == |aggs|
  {
    seq(|aggs|, i requires 0 <= i < |aggs| => (aggs[i].month, aggs[i].count))
  }

  function TotalActions(aggs: seq<Agg>): nat {
    if aggs == [] then 0 else TotalActions(aggs[..|aggs| - 1]) + aggs[|aggs| - 1].count
  }

  lemma {:induction false} SameTotal(aggs: seq<Agg>)
    ensures Total(CodeCounts(aggs)) == TotalActions(aggs)
    ensures Total(MatchCounts(aggs)) == TotalActions(aggs)
    ensures Total(MonthCounts(aggs)) == TotalActions(aggs)
  {
    if aggs != [] {
      var front := aggs[..|aggs| - 1];
      SameTotal(front);
      assert CodeCounts(aggs)[..|front|] == CodeCounts(front);
      assert MatchCounts(aggs)[..|front|] == MatchCounts(front);
      assert MonthCounts(aggs)[..|front|] == MonthCounts(front);
    }
  }

  // By code

  function FirstOfCode(aggs: seq<Agg>, code: int): Option<Agg> {
    if aggs == [] then None
    else
      var before := FirstOfCode(aggs[..|aggs| - 1], code);
      if before.Some? then before else if aggs[|aggs| - 1].code == code then Some(aggs[|aggs| - 1]) else None
  }

  /** The entry of a code: its whole count, with the name and impact of its first row. */
  predicate IsEntry(e: ByCode, aggs: seq<Agg>) {
    && FirstOfCode(aggs, e.code).Some?
    && e.name == FirstOfCode(aggs, e.code).value.name && e.impact == FirstOfCode(aggs, e.code).value.impact
    && e.count == CountOf(CodeCounts(aggs), e.code)
  }

  /** More actions first, then the lower code. */
  predicate Before(a: ByCode, b: ByCode) { a.count > b.count || (a.count == b.count && a.code < b.code) }

  predicate Ordered(entries: seq<ByCode>) { forall i, j :: 0 <= i < j < |entries| ==> Before(entries[i], entries[j]) }

  /** Everything that is promised of the list by code. */
  ghost predicate IsMerge(entries: seq<ByCode>, aggs: seq<Agg>) {
    && Ordered(entries)
    && (forall i :: 0 <= i < |entries| ==> IsEntry(entries[i], aggs) && entries[i].count > 0)
    && (forall code :: CountOf(CodeCounts(aggs), code) > 0 ==> HasCode(entries, code))
  }

  predicate HasCode(entries: seq<ByCode>, code: int) { exists i :: 0 <= i < |entries| && entries[i].code == code }

  function SumCounts(entries: seq<ByCode>): nat {
    if entries == [] then 0 else SumCounts(entries[..|entries| - 1]) + entries[|entries| - 1].count
  }

  function CodesOf(entries: seq<ByCode>): (codes: seq<int>)
    ensures |codes| == |entries| && forall i :: 0 <= i < |entries| ==> codes[i] == entries[i].code
  {
    seq(|entries|, i requires 0 <= i < |entries| => entries[i].code)
  }

  lemma {:induction false} SumCountsIsSumOver(entries: seq<ByCode>, aggs: seq<Agg>)
    requires forall i :: 0 <= i < |entries| ==> IsEntry(entries[i], aggs)
    ensures SumCounts(entries) == SumOver(CodesOf(entries), CodeCounts(aggs))
  {
    if entries != [] {
      var front := entries[..|entries| - 1];
      SumCountsIsSumOver(front, aggs);
      assert CodesOf(entries)[..|front|] == CodesOf(front);
    }
  }

  lemma {:induction false} CountedIsPositive(ps: seq<(int, nat)>, i: nat)
    requires i < |ps|
    ensures CountOf(ps, ps[i].0) >= ps[i].1
  {
    if i < |ps| - 1 {
      CountedIsPositive(ps[..|ps| - 1], i);
    }
  }

  /** The list by code adds up to all actions. */
  lemma CodesAddUp(entries: seq<ByCode>, aggs: seq<Agg>)
    requires IsMerge(entries, aggs)
    ensures SumCounts(entries) == TotalActions(aggs)
  {
    var ps, codes := CodeCounts(aggs), CodesOf(entries);
    SumCountsIsSumOver(entries, aggs);
    SameTotal(aggs);
    forall i, j | 0 <= i < j < |codes| ensures codes[i] != codes[j] {
      assert Before(entries[i], entries[j]);
    }
    forall i | 0 <= i < |ps| && ps[i].1 > 0 ensures ps[i].0 in codes {
      CountedIsPositive(ps, i);
      assert HasCode(entries, ps[i].0);
      var k :| 0 <= k < |entries| && entries[k].code == ps[i].0;
      assert codes[k] == ps[i].0;
    }
    KeysAddUp(codes, ps);
  }

  function Insert(entries: seq<ByCode>, e: ByCode): seq<ByCode> {
    if entries == [] || Before(entries[|entries| - 1], e) then entries + [e]
    else Insert(entries[..|entries| - 1], e) + [entries[|entries| - 1]]
  }

  lemma {:induction false} Inserted(entries: seq<ByCode>, e: ByCode)
    ensures |Insert(entries, e)| == |entries| + 1
    ensures forall x :: x in Insert(entries, e) <==> x in entries || x == e
    decreases |entries|
  {
    if !(entries == [] || Before(entries[|entries| - 1], e)) {
      var front, last := entries[..|entries| - 1], entries[|entries| - 1];
      Inserted(front, e);
      assert entries == front + [last];
    }
  }

  lemma OrderedSnoc(entries: seq<ByCode>, last: ByCode)
    requires Ordered(entries) && forall x :: x in entries ==> Before(x, last)
    ensures Ordered(entries + [last])
  {
    forall i | 0 <= i < |entries| ensures Before(entries[i], last) {
      assert entries[i] in entries;
    }
  }

  lemma {:induction false} InsertKeepsOrder(entries: seq<ByCode>, e: ByCode)
    requires Ordered(entries) && forall x :: x in entries ==> x.code != e.code
    ensures Ordered(Insert(entries, e))
    decreases |entries|
  {
    if entries == [] || Before(entries[|entries| - 1], e) {
      forall x | x in entries ensures Before(x, e) {
        var k :| 0 <= k < |entries| && entries[k] == x;
      }
      OrderedSnoc(entries, e);
    } else {
      var front, last := entries[..|entries| - 1], entries[|entries| - 1];
      assert last in entries;
      InsertKeepsOrder(front, e);
      Inserted(front, e);
      forall x | x in Insert(front, e) ensures Before(x, last) {
        if x in front {
          var k :| 0 <= k < |front| && front[k] == x;
          assert Before(entries[k], entries[|front|]);
        }
      }
      OrderedSnoc(Insert(front, e), last);
    }
  }

  /** The state of the map after some rows: one entry for each code that occurred. */
  ghost predicate Grouped(byCode: map<int, ByCode>, aggs: seq<Agg>) {
    && (forall code :: code in byCode <==> FirstOfCode(aggs, code).Some?)
    && (forall code :: code in byCode ==> byCode[code].code == code && IsEntry(byCode[code], aggs))
  }

  function Added(byCode: map<int, ByCode>, agg: Agg): map<int, ByCode> {
    if agg.code in byCode then byCode[agg.code := byCode[agg.code].(count := byCode[agg.code].count + agg.count)]
    else byCode[agg.code := ByCode(agg.code, agg.name, agg.impact, agg.count)]
  }

  lemma CountOneMore(aggs: seq<Agg>, agg: Agg, code: int)
    ensures CountOf(CodeCounts(aggs + [agg]), code)
      == CountOf(CodeCounts(aggs), code) + if agg.code == code then agg.count else 0
    ensures FirstOfCode(aggs + [agg], code) == if FirstOfCode(aggs, code).Some? then FirstOfCode(aggs, code)
      else if agg.code == code then Some(agg) else None
  {
    assert (aggs + [agg])[..|aggs|] == aggs;
    assert CodeCounts(aggs + [agg])[..|aggs|] == CodeCounts(aggs);
  }

  lemma {:induction false} NoneNoCount(aggs: seq<Agg>, code: int)
    requires FirstOfCode(aggs, code).None?
    ensures CountOf(CodeCounts(aggs), code) == 0
  {
    if aggs != [] {
      var front, last := aggs[..|aggs| - 1], aggs[|aggs| - 1];
      assert aggs == front + [last];
      CountOneMore(front, last, code);
      NoneNoCount(front, code);
    }
  }

  lemma GroupOneMore(byCode: map<int, ByCode>, aggs: seq<Agg>, agg: Agg)
    requires Grouped(byCode, aggs)
    ensures Grouped(Added(byCode, agg), aggs + [agg])
  {
    var after := Added(byCode, agg);
    forall code
      ensures code in after <==> FirstOfCode(aggs + [agg], code).Some?
      ensures code in after ==> after[code].code == code && IsEntry(after[code], aggs + [agg])
    {
      CountOneMore(aggs, agg, code);
      if code !in byCode { NoneNoCount(aggs, code); }
    }
  }

  method MergeActionsByCode(aggs: seq<Agg>) returns (entries: seq<ByCode>)
    ensures IsMerge(entries, aggs)
    ensures SumCounts(entries) == TotalActions(aggs)
  {
    var byCode: map<int, ByCode> := map[];
    for i := 0 to |aggs|
      invariant Grouped(byCode, aggs[..i])
    {
      assert aggs[..i + 1] == aggs[..i] + [aggs[i]];
      GroupOneMore(byCode, aggs[..i], aggs[i]);
      if aggs[i].code in byCode {
        var existing := byCode[aggs[i].code];
        byCode := byCode[existing.code := existing.(count := existing.count + aggs[i].count)];
      } else {
        byCode := byCode[aggs[i].code := ByCode(aggs[i].code, aggs[i].name, aggs[i].impact, aggs[i].count)];
      }
    }
    assert aggs[..|aggs|] == aggs;
    entries := SortedEntries(byCode);
    forall code | CountOf(CodeCounts(aggs), code) > 0 ensures HasCode(entries, code) {
      if FirstOfCode(aggs, code).None? { NoneNoCount(aggs, code); }
      assert byCode[code] in entries;
      var i :| 0 <= i < |entries| && entries[i] == byCode[code];
    }
    forall i | 0 <= i < |entries| ensures IsEntry(entries[i], aggs) && entries[i].count > 0 {
      assert entries[i] in entries;
    }
    CodesAddUp(entries, aggs);
  }

  /** The entries with a count, in the order of the list. */
  method SortedEntries(byCode: map<int, ByCode>) returns (entries: seq<ByCode>)
    requires forall code :: code in byCode ==> byCode[code].code == code
    ensures Ordered(entries)
    ensures forall e :: e in entries <==> e.code in byCode && byCode[e.code] == e && e.count > 0
  {
    entries := [];
    var todo := byCode.Keys;
    while todo != {}
      invariant todo <= byCode.Keys && Ordered(entries)
      invariant forall e :: e in entries <==> e.code in byCode && e.code !in todo && byCode[e.code] == e && e.count > 0
      decreases todo
    {
      NonEmpty(todo);
      var code :| code in todo;
      todo := todo - {code};
      if byCode[code].count > 0 {
        InsertKeepsOrder(entries, byCode[code]);
        Inserted(entries, byCode[code]);
        entries := Insert(entries, byCode[code]);
      }
    }
  }

  // By match

  function OfMatch(aggs: seq<Agg>, m: int): seq<Agg> {
    if aggs == [] then []
    else OfMatch(aggs[..|aggs| - 1], m) + if aggs[|aggs| - 1].matchId == m then [aggs[|aggs| - 1]] else []
  }

  lemma {:induction false} MatchTotal(aggs: seq<Agg>, m: int)
    ensures TotalActions(OfMatch(aggs, m)) == CountOf(MatchCounts(aggs), m)
  {
    if aggs != [] {
      var front := aggs[..|aggs| - 1];
      MatchTotal(front, m);
      assert MatchCounts(aggs)[..|front|] == MatchCounts(front);
      if aggs[|aggs| - 1].matchId == m {
        assert OfMatch(aggs, m)[..|OfMatch(front, m)|] == OfMatch(front, m);
      } else {
        assert OfMatch(aggs, m) == OfMatch(front, m);
      }
    }
  }

  datatype MatchLine = MatchLine(matchId: int, actionsCount: nat, actions: seq<ByCode>)

  function SumLines(lines: seq<MatchLine>): nat {
    if lines == [] then 0 else SumLines(lines[..|lines| - 1]) + lines[|lines| - 1].actionsCount
  }

  function MatchesOf(attendance: seq<Attendance>): (ms: seq<int>)
    ensures |ms| == |attendance| && forall i :: 0 <= i < |ms| ==> ms[i] == attendance[i].matchId
  {
    seq(|attendance|, i requires 0 <= i < |attendance| => attendance[i].matchId)
  }

  /** What the queries return: one attendance row a match, and counted actions only in attended matches,
      dated like them. */
  predicate FromQueries(attendance: seq<Attendance>, aggs: seq<Agg>) {
    && AllDiffer(MatchesOf(attendance))
    && (forall i :: 0 <= i < |aggs| ==> Attended(attendance, aggs[i]))
  }

  predicate Attended(attendance: seq<Attendance>, agg: Agg) {
    exists k :: 0 <= k < |attendance| && attendance[k].matchId == agg.matchId && attendance[k].month == agg.month
  }

  ghost predicate IsLine(line: MatchLine, aggs: seq<Agg>) {
    IsMerge(line.actions, OfMatch(aggs, line.matchId)) && line.actionsCount == SumCounts(line.actions)
  }

  /** One line for each attended match; the lines add up to all actions. The source then sorts them by date. */
  method MatchLines(attendance: seq<Attendance>, aggs: seq<Agg>) returns (lines: seq<MatchLine>)
    requires FromQueries(attendance, aggs)
    ensures |lines| == |attendance|
    ensures forall i :: 0 <= i < |lines| ==> lines[i].matchId == attendance[i].matchId && IsLine(lines[i], aggs)
    ensures SumLines(lines) == TotalActions(aggs)
  {
    hide IsLine, MatchCounts, CountOf, TotalActions, FromQueries;
    lines := [];
    var ms := MatchesOf(attendance);
    for i := 0 to |attendance|
      invariant |lines| == i
      invariant forall k :: 0 <= k < i ==> lines[k].matchId == attendance[k].matchId && IsLine(lines[k], aggs)
      invariant SumLines(lines) == SumOver(ms[..i], MatchCounts(aggs))
    {
      var line := LineOf(attendance[i], aggs);
      assert ms[..i + 1][..i] == ms[..i];
      assert (lines + [line])[..i] == lines;
      lines := lines + [line];
    }
    assert ms[..|attendance|] == ms;
    MatchesAddUp(attendance, aggs);
  }

  method LineOf(att: Attendance, aggs: seq<Agg>) returns (line: MatchLine)
    ensures line.matchId == att.matchId && IsLine(line, aggs)
    ensures line.actionsCount == CountOf(MatchCounts(aggs), att.matchId)
  {
    var actions := MergeActionsByCode(OfMatch(aggs, att.matchId));
    MatchTotal(aggs, att.matchId);
    line := MatchLine(att.matchId, SumCounts(actions), actions);
  }

  lemma MatchesAddUp(attendance: seq<Attendance>, aggs: seq<Agg>)
    requires FromQueries(attendance, aggs)
    ensures SumOver(MatchesOf(attendance), MatchCounts(aggs)) == TotalActions(aggs)
  {
    var ms := MatchesOf(attendance);
    forall i | 0 <= i < |aggs| ensures MatchCounts(aggs)[i].0 in ms {
      assert Attended(attendance, aggs[i]);
      var k :| 0 <= k < |attendance| && attendance[k].matchId == aggs[i].matchId;
      assert ms[k] == aggs[i].matchId;
    }
    KeysAddUp(ms, MatchCounts(aggs));
    SameTotal(aggs);
  }

  // By month

  datatype MonthEntry = MonthEntry(totalActions: nat, matchIds: set<int>)

  datatype MonthLine = MonthLine(month: string, totalActions: nat, matchesPlayed: nat)

  /** One for each attended match. */
  function MonthOnes(attendance: seq<Attendance>): (ps: seq<(string, nat)>)
    ensures |ps| == |attendance|
  {
    seq(|attendance|, i requires 0 <= i < |attendance| => (attendance[i].month, 1))
  }

  function EntryOf(months: map<string, MonthEntry>, month: string): MonthEntry {
    if month in months then months[month] else MonthEntry(0, {})
  }

  /** After some attendance rows: each month has as many matches as rows. */
  ghost predicate MatchesRight(months: map<string, MonthEntry>, attendance: seq<Attendance>) {
    && (forall k :: 0 <= k < |attendance| ==> attendance[k].month in months)
    && (forall month :: |EntryOf(months, month).matchIds| == CountOf(MonthOnes(attendance), month))
    && (forall month, id :: id in EntryOf(months, month).matchIds ==> id in MatchesOf(attendance))
  }

  /** After some action rows: each month has their count. */
  ghost predicate ActionsRight(months: map<string, MonthEntry>, aggs: seq<Agg>) {
    && (forall i :: 0 <= i < |aggs| ==> aggs[i].month in months)
    && (forall month :: EntryOf(months, month).totalActions == CountOf(MonthCounts(aggs), month))
  }

  function WithMatch(months: map<string, MonthEntry>, att: Attendance): map<string, MonthEntry> {
    var entry := EntryOf(months, att.month);
    months[att.month := entry.(matchIds := entry.matchIds + {att.matchId})]
  }

  function WithActions(months: map<string, MonthEntry>, agg: Agg): map<string, MonthEntry> {
    var entry := EntryOf(months, agg.month);
    months[agg.month := entry.(totalActions := entry.totalActions + agg.count)]
  }

  lemma MatchOneMore(months: map<string, MonthEntry>, attendance: seq<Attendance>, att: Attendance)
    requires MatchesRight(months, attendance) && att.matchId !in MatchesOf(attendance)
    ensures MatchesRight(WithMatch(months, att), attendance + [att])
  {
    var entry, after, more := EntryOf(months, att.month), WithMatch(months, att), attendance + [att];
    assert MonthOnes(more) == MonthOnes(attendance) + [(att.month, 1)];
    assert MatchesOf(more) == MatchesOf(attendance) + [att.matchId];
    assert att.matchId !in entry.matchIds;
    hide CountOf, MonthOnes;
    forall month ensures |EntryOf(after, month).matchIds| == CountOf(MonthOnes(more), month) {
      CountSnoc(MonthOnes(attendance), (att.month, 1), month);
      assert |EntryOf(months, month).matchIds| == CountOf(MonthOnes(attendance), month);
    }
    forall month, id | id in EntryOf(after, month).matchIds ensures id in MatchesOf(more) {
      assert id in EntryOf(months, month).matchIds || id == att.matchId;
    }
  }

  lemma MatchKeepsActions(months: map<string, MonthEntry>, att: Attendance, aggs: seq<Agg>)
    requires ActionsRight(months, aggs)
    ensures ActionsRight(WithMatch(months, att), aggs)
  {
    forall month ensures EntryOf(WithMatch(months, att), month).totalActions == EntryOf(months, month).totalActions {
    }
  }

  lemma ActionsOneMore(months: map<string, MonthEntry>, aggs: seq<Agg>, agg: Agg)
    requires ActionsRight(months, aggs)
    ensures ActionsRight(WithActions(months, agg), aggs + [agg])
  {
    var after, more := WithActions(months, agg), aggs + [agg];
    assert MonthCounts(more) == MonthCounts(aggs) + [(agg.month, agg.count)];
    forall month ensures EntryOf(after, month).totalActions == CountOf(MonthCounts(more), month) {
      CountSnoc(MonthCounts(aggs), (agg.month, agg.count), month);
      assert EntryOf(months, month).totalActions == CountOf(MonthCounts(aggs), month);
    }
  }

  lemma ActionsKeepMatches(months: map<string, MonthEntry>, attendance: seq<Attendance>, agg: Agg)
    requires MatchesRight(months, attendance)
    ensures MatchesRight(WithActions(months, agg), attendance)
  {
    forall month ensures EntryOf(WithActions(months, agg), month).matchIds == EntryOf(months, month).matchIds {
    }
  }

  lemma CountSnoc<K>(ps: seq<(K, nat)>, p: (K, nat), key: K)
    ensures CountOf(ps + [p], key) == CountOf(ps, key) + if p.0 == key then p.1 else 0
  {
    assert (ps + [p])[..|ps|] == ps;
  }

  function MonthsOf(lines: seq<MonthLine>): (months: seq<string>)
    ensures |months| == |lines| && forall i :: 0 <= i < |months| ==> months[i] == lines[i].month
  {
    seq(|lines|, i requires 0 <= i < |lines| => lines[i].month)
  }

  function SumMonthActions(lines: seq<MonthLine>): nat {
    if lines == [] then 0 else SumMonthActions(lines[..|lines| - 1]) + lines[|lines| - 1].totalActions
  }

  function SumMonthMatches(lines: seq<MonthLine>): nat {
    if lines == [] then 0 else SumMonthMatches(lines[..|lines| - 1]) + lines[|lines| - 1].matchesPlayed
  }

  predicate IsMonthLine(line: MonthLine, attendance: seq<Attendance>, aggs: seq<Agg>) {
    && line.totalActions == CountOf(MonthCounts(aggs), line.month)
    && line.matchesPlayed == CountOf(MonthOnes(attendance), line.month)
  }

  lemma {:induction false} MonthSums(lines: seq<MonthLine>, attendance: seq<Attendance>, aggs: seq<Agg>)
    requires forall i :: 0 <= i < |lines| ==> IsMonthLine(lines[i], attendance, aggs)
    ensures SumMonthActions(lines) == SumOver(MonthsOf(lines), MonthCounts(aggs))
    ensures SumMonthMatches(lines) == SumOver(MonthsOf(lines), MonthOnes(attendance))
  {
    if lines != [] {
      var front := lines[..|lines| - 1];
      MonthSums(front, attendance, aggs);
      assert MonthsOf(lines)[..|front|] == MonthsOf(front);
    }
  }

  lemma {:induction false} OnesAddUp(attendance: seq<Attendance>)
    ensures Total(MonthOnes(attendance)) == |attendance|
  {
    if attendance != [] {
      OnesAddUp(attendance[..|attendance| - 1]);
      assert MonthOnes(attendance)[..|attendance| - 1] == MonthOnes(attendance[..|attendance| - 1]);
    }
  }

  /** The months add up to all actions and to all matches. */
  lemma MonthsAddUp(lines: seq<MonthLine>, attendance: seq<Attendance>, aggs: seq<Agg>)
    requires AllDiffer(MonthsOf(lines))
    requires forall i :: 0 <= i < |lines| ==> IsMonthLine(lines[i], attendance, aggs)
    requires forall k :: 0 <= k < |attendance| ==> attendance[k].month in MonthsOf(lines)
    requires forall i :: 0 <= i < |aggs| ==> aggs[i].month in MonthsOf(lines)
    ensures SumMonthActions(lines) == TotalActions(aggs)
    ensures SumMonthMatches(lines) == |attendance|
  {
    MonthSums(lines, attendance, aggs);
    SameTotal(aggs);
    OnesAddUp(attendance);
    KeysAddUp(MonthsOf(lines), MonthCounts(aggs));
    KeysAddUp(MonthsOf(lines), MonthOnes(attendance));
  }

  method EvolutionByMonth(attendance: seq<Attendance>, aggs: seq<Agg>) returns (lines: seq<MonthLine>)
    requires FromQueries(attendance, aggs)
    ensures AllDiffer(MonthsOf(lines))
    ensures forall i :: 0 <= i < |lines| ==> IsMonthLine(lines[i], attendance, aggs)
    ensures SumMonthActions(lines) == TotalActions(aggs)
    ensures SumMonthMatches(lines) == |attendance|
  {
    var months := MatchMonths(attendance);
    months := ActionMonths(months, attendance, aggs);
    lines := MonthEntries(months);
    MonthsListed(months, lines, attendance, aggs);
    MonthsAddUp(lines, attendance, aggs);
  }

  /** The loop over the attendance rows. */
  method MatchMonths(attendance: seq<Attendance>) returns (months: map<string, MonthEntry>)
    requires AllDiffer(MatchesOf(attendance))
    ensures MatchesRight(months, attendance) && ActionsRight(months, [])
  {
    months := map[];
    assert MonthCounts([]) == [] && MonthOnes([]) == [] && attendance[..0] == [];
    for k := 0 to |attendance|
      invariant MatchesRight(months, attendance[..k]) && ActionsRight(months, [])
    {
      hide MatchesRight, ActionsRight;
      assert attendance[..k + 1] == attendance[..k] + [attendance[k]];
      NotSeenYet(attendance, k);
      MatchOneMore(months, attendance[..k], attendance[k]);
      MatchKeepsActions(months, attendance[k], []);
      var entry := EntryOf(months, attendance[k].month);
      months := months[attendance[k].month := entry.(matchIds := entry.matchIds + {attendance[k].matchId})];
    }
    assert attendance[..|attendance|] == attendance;
  }

  lemma NotSeenYet(attendance: seq<Attendance>, k: nat)
    requires k < |attendance| && AllDiffer(MatchesOf(attendance))
    ensures attendance[k].matchId !in MatchesOf(attendance[..k])
  {
    assert MatchesOf(attendance)[k] == attendance[k].matchId;
    assert forall j :: 0 <= j < k ==> MatchesOf(attendance[..k])[j] == MatchesOf(attendance)[j];
  }

  /** The loop over the action rows. */
  method ActionMonths(before: map<string, MonthEntry>, ghost attendance: seq<Attendance>, aggs: seq<Agg>)
    returns (months: map<string, MonthEntry>)
    requires MatchesRight(before, attendance) && ActionsRight(before, [])
    ensures MatchesRight(months, attendance) && ActionsRight(months, aggs)
  {
    hide MatchesRight, ActionsRight;
    months := before;
    assert aggs[..0] == [];
    for i := 0 to |aggs|
      invariant MatchesRight(months, attendance) && ActionsRight(months, aggs[..i])
    {
      assert aggs[..i + 1] == aggs[..i] + [aggs[i]];
      ActionsOneMore(months, aggs[..i], aggs[i]);
      ActionsKeepMatches(months, attendance, aggs[i]);
      var entry := EntryOf(months, aggs[i].month);
      months := months[aggs[i].month := entry.(totalActions := entry.totalActions + aggs[i].count)];
    }
    assert aggs[..|aggs|] == aggs;
  }

  lemma SomeMonth(s: set<string>)
    requires s != {}
    ensures exists month :: month in s
  {
    assert (forall month :: month !in s) ==> s == {};
  }

  predicate Shows(line: MonthLine, months: map<string, MonthEntry>) {
    && line.month in months
    && line.totalActions == months[line.month].totalActions
    && line.matchesPlayed == |months[line.month].matchIds|
  }

  method MonthEntries(months: map<string, MonthEntry>) returns (lines: seq<MonthLine>)
    ensures AllDiffer(MonthsOf(lines))
    ensures forall month :: month in MonthsOf(lines) <==> month in months
    ensures forall i :: 0 <= i < |lines| ==> Shows(lines[i], months)
  {
    lines := [];
    var todo := months.Keys;
    while todo != {}
      invariant todo <= months.Keys && AllDiffer(MonthsOf(lines))
      invariant forall month :: month in MonthsOf(lines) <==> month in months && month !in todo
      invariant forall i :: 0 <= i < |lines| ==> Shows(lines[i], months)
      decreases todo
    {
      SomeMonth(todo);
      var month :| month in todo;
      todo := todo - {month};
      var line := MonthLine(month, months[month].totalActions, |months[month].matchIds|);
      assert MonthsOf(lines + [line]) == MonthsOf(lines) + [month];
      lines := lines + [line];
    }
  }

  lemma MonthsListed(
      months: map<string, MonthEntry>, lines: seq<MonthLine>, attendance: seq<Attendance>, aggs: seq<Agg>)
    requires MatchesRight(months, attendance) && ActionsRight(months, aggs)
    requires forall month :: month in MonthsOf(lines) <==> month in months
    requires forall i :: 0 <= i < |lines| ==> Shows(lines[i], months)
    ensures forall i :: 0 <= i < |lines| ==> IsMonthLine(lines[i], attendance, aggs)
    ensures forall k :: 0 <= k < |attendance| ==> attendance[k].month in MonthsOf(lines)
    ensures forall i :: 0 <= i < |aggs| ==> aggs[i].month in MonthsOf(lines)
  {
    forall i | 0 <= i < |lines| ensures IsMonthLine(lines[i], attendance, aggs) {
      assert EntryOf(months, lines[i].month) == months[lines[i].month];
    }
  }

  // By radar dimension

  datatype Slug = Attack | Creation | Defense | Recovery | Goalkeeping | Discipline

  const SLUGS: seq<Slug> := [Attack, Creation, Defense, Recovery, Goalkeeping, Discipline]

  datatype Rule = Rule(slug: Slug, codeHints: set<int>, keywords: seq<string>)

  const RULES: seq<Rule> := [
    Rule(Attack, {1, 5, 6}, ["gol", "goal", "tiro", "shot", "arco", "shoot"]),
    Rule(Creation, {2, 3, 4}, ["asist", "assist", "pase", "pass", "regate", "dribbl"]),
    Rule(Defense, {10, 11, 12}, ["intercep", "quite", "tackle", "despej", "clear", "block", "defen"]),
    Rule(Recovery, {13, 9},
      ["recuper", "recover", "p\U{E9}rdida", "perdida", "possession", "bal\U{F3}n", "ball", "turnover"]),
    Rule(Goalkeeping, {14, 15}, ["atajad", "save", "porter", "goalkeeper", "keeper", "salida"]),
    Rule(Discipline, {7, 8}, ["falta", "foul", "tarjeta", "card"])]

  predicate Includes(text: string, part: string) {
    exists k :: 0 <= k <= |text| - |part| && OccursAt(text, part, k)
  }

  predicate OccursAt(text: string, part: string, k: nat)
    requires k <= |text| - |part|
  {
    text[k..k + |part|] == part
  }

  /** A text includes a part if and only if it is that part with something before and something after it. */
  lemma IncludesIff(text: string, part: string)
    ensures Includes(text, part) <==> exists front, back :: text == front + part + back
  {
    if Includes(text, part) {
      var k :| 0 <= k <= |text| - |part| && OccursAt(text, part, k);
      assert text == text[..k] + part + text[k + |part|..];
    }
    if front, back :| text == front + part + back {
      assert OccursAt(text, part, |front|);
    }
  }

  function Score(keywords: seq<string>, text: string): nat {
    if keywords == [] then 0
    else Score(keywords[..|keywords| - 1], text) + if Includes(text, keywords[|keywords| - 1]) then 1 else 0
  }

  /** The score is the number of keywords that the text includes. */
  lemma {:induction false} ScoreCounts(keywords: seq<string>, text: string)
    ensures Score(keywords, text) == |set k | 0 <= k < |keywords| && Includes(text, keywords[k])|
  {
    var found := set k | 0 <= k < |keywords| && Includes(text, keywords[k]);
    if keywords == [] {
      assert found == {};
    } else {
      var last := |keywords| - 1;
      ScoreCounts(keywords[..last], text);
      hide Includes;
      var earlier := set k | 0 <= k < |keywords[..last]| && Includes(text, keywords[..last][k]);
      assert found == earlier + if Includes(text, keywords[last]) then {last} else {};
    }
  }

  /** The first rule that names the code, else the first of the rules with most keywords in the text, else
      recovery when no keyword occurs. */
  ghost predicate IsDimension(slug: Slug, rules: seq<Rule>, code: int, text: string) {
    if exists r :: 0 <= r < |rules| && code in rules[r].codeHints then
      exists r :: 0 <= r < |rules| && FirstHint(rules, r, code) && rules[r].slug == slug
    else if exists r :: 0 <= r < |rules| && Score(rules[r].keywords, text) > 0 then
      exists r :: 0 <= r < |rules| && FirstBest(rules, r, text) && rules[r].slug == slug
    else slug == Recovery
  }

  predicate FirstHint(rules: seq<Rule>, r: nat, code: int)
    requires r < |rules|
  {
    code in rules[r].codeHints && forall q :: 0 <= q < r ==> code !in rules[q].codeHints
  }

  predicate FirstBest(rules: seq<Rule>, r: nat, text: string)
    requires r < |rules|
  {
    && (forall q :: 0 <= q < |rules| ==> Score(rules[q].keywords, text) <= Score(rules[r].keywords, text))
    && (forall q :: 0 <= q < r ==> Score(rules[q].keywords, text) < Score(rules[r].keywords, text))
  }

  /** `text` is the lower-case name and description. */
  method ResolveActionDimension(rules: seq<Rule>, code: int, text: string) returns (slug: Slug)
    ensures IsDimension(slug, rules, code, text)
  {
    for r := 0 to |rules|
      invariant forall q :: 0 <= q < r ==> code !in rules[q].codeHints
    {
      if code in rules[r].codeHints {
        assert FirstHint(rules, r, code);
        return rules[r].slug;
      }
    }
    var bestSlug, bestScore := Recovery, 0;
    ghost var best := 0;
    for r := 0 to |rules|
      invariant bestScore == 0 ==> bestSlug == Recovery
      invariant forall q :: 0 <= q < r ==> Score(rules[q].keywords, text) <= bestScore
      invariant bestScore > 0 ==>
        && 0 <= best < r && rules[best].slug == bestSlug && Score(rules[best].keywords, text) == bestScore
        && forall q :: 0 <= q < best ==> Score(rules[q].keywords, text) < bestScore
    {
      var score := 0;
      for k := 0 to |rules[r].keywords|
        invariant score == Score(rules[r].keywords[..k], text)
      {
        assert rules[r].keywords[..k + 1][..k] == rules[r].keywords[..k];
        if Includes(text, rules[r].keywords[k]) { score := score + 1; }
      }
      assert rules[r].keywords[..|rules[r].keywords|] == rules[r].keywords;
      if score > bestScore {
        bestScore, bestSlug, best := score, rules[r].slug, r;
      }
    }
    assert bestScore > 0 ==> FirstBest(rules, best, text);
    return bestSlug;
  }

  /** The codes of the standard catalogue and their dimensions. */
  predicate Belongs(code: int, slug: Slug) {
    match slug
    case Attack => code in {1, 5, 6}
    case Creation => code in {2, 3, 4}
    case Defense => code in {10, 11, 12}
    case Recovery => code in {9, 13}
    case Goalkeeping => code in {14, 15}
    case Discipline => code in {7, 8}
  }

  /** Each of the fifteen codes has its dimension, whatever its text. */
  lemma StandardCodes(slug: Slug, code: int, text: string)
    requires 1 <= code <= 15 && IsDimension(slug, RULES, code, text)
    ensures Belongs(code, slug)
  {
    var r := HintOf(code);
    hide Score, FirstBest;
    var q :| 0 <= q < |RULES| && FirstHint(RULES, q, code) && RULES[q].slug == slug;
    HintBelongs(q, code);
  }

  lemma HintOf(code: int) returns (r: nat)
    requires 1 <= code <= 15
    ensures r < |RULES| && code in RULES[r].codeHints
  {
    r := if code in {1, 5, 6} then 0 else if code in {2, 3, 4} then 1 else if code in {10, 11, 12} then 2
      else if code in {9, 13} then 3 else if code in {14, 15} then 4 else 5;
  }

  lemma HintBelongs(r: nat, code: int)
    requires r < |RULES| && code in RULES[r].codeHints
    ensures Belongs(code, RULES[r].slug)
  {
  }

  datatype DimensionCount = DimensionCount(slug: Slug, count: nat)

  function DimensionPairs(entries: seq<ByCode>, slugs: seq<Slug>): (ps: seq<(Slug, nat)>)
    requires |slugs| == |entries|
    ensures |ps| == |entries|
  {
    seq(|entries|, i requires 0 <= i < |entries| => (slugs[i], entries[i].count))
  }

  function SumDimensions(dims: seq<DimensionCount>): nat {
    if dims == [] then 0 else SumDimensions(dims[..|dims| - 1]) + dims[|dims| - 1].count
  }

  function SlugsOf(dims: seq<DimensionCount>): (slugs: seq<Slug>)
    ensures |slugs| == |dims| && forall i :: 0 <= i < |slugs| ==> slugs[i] == dims[i].slug
  {
    seq(|dims|, i requires 0 <= i < |dims| => dims[i].slug)
  }

  lemma {:induction false} PairsTotal(entries: seq<ByCode>, slugs: seq<Slug>)
    requires |slugs| == |entries|
    ensures Total(DimensionPairs(entries, slugs)) == SumCounts(entries)
  {
    if entries != [] {
      var last := |entries| - 1;
      PairsTotal(entries[..last], slugs[..last]);
      assert DimensionPairs(entries, slugs)[..last] == DimensionPairs(entries[..last], slugs[..last]);
    }
  }

  lemma {:induction false} DimensionSums(dims: seq<DimensionCount>, ps: seq<(Slug, nat)>)
    requires forall i :: 0 <= i < |dims| ==> dims[i].count == CountOf(ps, dims[i].slug)
    ensures SumDimensions(dims) == SumOver(SlugsOf(dims), ps)
  {
    if dims != [] {
      DimensionSums(dims[..|dims| - 1], ps);
      assert SlugsOf(dims)[..|dims| - 1] == SlugsOf(dims[..|dims| - 1]);
    }
  }

  lemma {:induction false} NotCounted(ps: seq<(Slug, nat)>, i: nat, slug: Slug)
    requires i < |ps| && ps[i].0 == slug && CountOf(ps, slug) == 0
    ensures ps[i].1 == 0
  {
    if i < |ps| - 1 {
      NotCounted(ps[..|ps| - 1], i, slug);
    }
  }

  ghost predicate AreDimensions(slugs: seq<Slug>, entries: seq<ByCode>, texts: seq<string>)
    requires |slugs| == |entries| == |texts|
  {
    forall i :: 0 <= i < |entries| ==> IsDimension(slugs[i], RULES, entries[i].code, texts[i])
  }

  ghost predicate AreTotals(totals: map<Slug, nat>, ps: seq<(Slug, nat)>) {
    forall slug :: slug in totals && totals[slug] == CountOf(ps, slug)
  }

  /** The loop over the entries. */
  method DimensionTotals(entries: seq<ByCode>, texts: seq<string>)
    returns (totals: map<Slug, nat>, ghost slugs: seq<Slug>)
    requires |texts| == |entries|
    ensures |slugs| == |entries| && AreDimensions(slugs, entries, texts)
    ensures AreTotals(totals, DimensionPairs(entries, slugs))
  {
    hide IsDimension, CountOf;
    totals := map slug | slug in SLUGS :: 0;
    slugs := [];
    NoTotals(totals);
    assert DimensionPairs(entries[..0], []) == [];
    for i := 0 to |entries|
      invariant |slugs| == i
      invariant AreDimensions(slugs, entries[..i], texts[..i])
      invariant AreTotals(totals, DimensionPairs(entries[..i], slugs))
    {
      var slug := ResolveActionDimension(RULES, entries[i].code, texts[i]);
      PairsSnoc(entries, slugs, i, slug);
      if entries[i].count > 0 {
        totals := totals[slug := totals[slug] + entries[i].count];
      }
      slugs := slugs + [slug];
    }
    assert entries[..|entries|] == entries && texts[..|entries|] == texts;
  }

  lemma NoTotals(totals: map<Slug, nat>)
    requires totals == map slug | slug in SLUGS :: 0
    ensures AreTotals(totals, [])
  {
    forall slug ensures slug in totals {
      AllSlugs(slug);
    }
  }

  /** The slugs with a total, in their fixed order. */
  method ListDimensions(totals: map<Slug, nat>) returns (dims: seq<DimensionCount>)
    requires forall slug :: slug in totals
    ensures forall d :: 0 <= d < |dims| ==> dims[d].count > 0 && dims[d].count == totals[dims[d].slug]
    ensures forall j :: 0 <= j < |SLUGS| && totals[SLUGS[j]] > 0 ==> SLUGS[j] in SlugsOf(dims)
    ensures AllDiffer(SlugsOf(dims))
  {
    dims := [];
    for k := 0 to |SLUGS|
      invariant forall d :: 0 <= d < |dims| ==>
        dims[d].count > 0 && dims[d].count == totals[dims[d].slug] && dims[d].slug in SLUGS[..k]
      invariant forall j :: 0 <= j < k && totals[SLUGS[j]] > 0 ==> SLUGS[j] in SlugsOf(dims)
      invariant AllDiffer(SlugsOf(dims))
    {
      var slug := SLUGS[k];
      assert SLUGS[..k + 1] == SLUGS[..k] + [slug] && slug !in SLUGS[..k];
      if totals[slug] > 0 {
        assert SlugsOf(dims + [DimensionCount(slug, totals[slug])]) == SlugsOf(dims) + [slug];
        dims := dims + [DimensionCount(slug, totals[slug])];
      }
    }
  }

  /** The dimensions with a count, each with the whole count of the codes that belong to it; they add up to
      the list by code. */
  method BuildDimensionCounts(entries: seq<ByCode>, texts: seq<string>)
    returns (dims: seq<DimensionCount>, ghost slugs: seq<Slug>)
    requires |texts| == |entries|
    ensures |slugs| == |entries| && AreDimensions(slugs, entries, texts)
    ensures forall d :: 0 <= d < |dims| ==>
      dims[d].count > 0 && dims[d].count == CountOf(DimensionPairs(entries, slugs), dims[d].slug)
    ensures AllDiffer(SlugsOf(dims))
    ensures SumDimensions(dims) == SumCounts(entries)
  {
    var totals;
    totals, slugs := DimensionTotals(entries, texts);
    dims := ListDimensions(totals);
    DimensionsAddUp(dims, entries, slugs, totals);
  }

  lemma PairsSnoc(entries: seq<ByCode>, slugs: seq<Slug>, i: nat, slug: Slug)
    requires i < |entries| && |slugs| == i
    ensures var before, after := DimensionPairs(entries[..i], slugs), DimensionPairs(entries[..i + 1], slugs + [slug]);
      forall s :: CountOf(after, s) == CountOf(before, s) + if slug == s then entries[i].count else 0
  {
    assert DimensionPairs(entries[..i + 1], slugs + [slug])
      == DimensionPairs(entries[..i], slugs) + [(slug, entries[i].count)];
    forall s
      ensures CountOf(DimensionPairs(entries[..i + 1], slugs + [slug]), s)
        == CountOf(DimensionPairs(entries[..i], slugs), s) + if slug == s then entries[i].count else 0
    {
      CountSnoc(DimensionPairs(entries[..i], slugs), (slug, entries[i].count), s);
    }
  }

  lemma DimensionsAddUp(dims: seq<DimensionCount>, entries: seq<ByCode>, slugs: seq<Slug>, totals: map<Slug, nat>)
    requires |slugs| == |entries| && AllDiffer(SlugsOf(dims))
    requires AreTotals(totals, DimensionPairs(entries, slugs))
    requires forall d :: 0 <= d < |dims| ==> dims[d].count == totals[dims[d].slug]
    requires forall j :: 0 <= j < |SLUGS| && totals[SLUGS[j]] > 0 ==> SLUGS[j] in SlugsOf(dims)
    ensures SumDimensions(dims) == SumCounts(entries)
  {
    var ps := DimensionPairs(entries, slugs);
    DimensionSums(dims, ps);
    PairsTotal(entries, slugs);
    forall i | 0 <= i < |ps| && ps[i].1 > 0 ensures ps[i].0 in SlugsOf(dims) {
      if totals[ps[i].0] == 0 { NotCounted(ps, i, ps[i].0); }
      AllSlugs(ps[i].0);
    }
    KeysAddUp(SlugsOf(dims), ps);
  }

  lemma AllSlugs(slug: Slug)
    ensures exists j :: 0 <= j < |SLUGS| && SLUGS[j] == slug
  {
    assert SLUGS[0] == Attack && SLUGS[1] == Creation && SLUGS[2] == Defense;
    assert SLUGS[3] == Recovery && SLUGS[4] == Goalkeeping && SLUGS[5] == Discipline;
  }

  // Radar scores

  datatype RadarScore = RadarScore(slug: Slug, count: nat, score: int)

  function WithData(dims: seq<DimensionCount>): (data: seq<DimensionCount>)
    ensures forall i :: 0 <= i < |data| ==> data[i].count > 0
    ensures (forall i :: 0 <= i < |dims| ==> dims[i].count > 0) ==> data == dims
  {
    if dims == [] then []
    else WithData(dims[..|dims| - 1]) + if dims[|dims| - 1].count > 0 then [dims[|dims| - 1]] else []
  }

  function MaxCount(dims: seq<DimensionCount>): (max: nat)
    ensures forall i :: 0 <= i < |dims| ==> dims[i].count <= max
    ensures max > 0 ==> exists i :: 0 <= i < |dims| && dims[i].count == max
  {
    if dims == [] then 0
    else
      var front := MaxCount(dims[..|dims| - 1]);
      if dims[|dims| - 1].count > front then dims[|dims| - 1].count else front
  }

  /** Math.round(count / max * 100): halves go up. */
  function Percent(count: nat, max: nat): int
    requires max > 0
  {
    (200 * count + max) / (2 * max)
  }

  function NormalizeRadarScores(dims: seq<DimensionCount>): seq<RadarScore> {
    var data := WithData(dims);
    var max := MaxCount(data);
    seq(|data|, i requires 0 <= i < |data| =>
      RadarScore(data[i].slug, data[i].count, if max == 0 then 0 else Percent(data[i].count, max)))
  }

  lemma ProductsOrder(a: int, b: int, d: int)
    requires a <= b && d > 0
    ensures a * d <= b * d
  {
  }

  lemma DivisionIsMonotone(x: int, y: int, d: int)
    requires x <= y && d > 0
    ensures x / d <= y / d
  {
    var p, q := x / d, y / d;
    assert p * d <= x && y < q * d + d;
    if p >= q + 1 {
      ProductsOrder(q + 1, p, d);
    }
  }

  lemma FullScore(max: nat)
    requires max > 0
    ensures Percent(max, max) == 100
  {
    var d := 2 * max;
    var q := (200 * max + max) / d;
    assert 200 * max + max == 100 * d + max;
    assert q * d <= 100 * d + max < q * d + d;
    if q > 100 {
      ProductsOrder(101, q, d);
    } else if q < 100 {
      ProductsOrder(q, 99, d);
    }
  }

  lemma PercentIsMonotone(a: nat, b: nat, max: nat)
    requires a <= b && max > 0
    ensures Percent(a, max) <= Percent(b, max)
  {
    DivisionIsMonotone(200 * a + max, 200 * b + max, 2 * max);
  }

  lemma PercentBounds(count: nat, max: nat)
    requires count <= max && max > 0
    ensures 0 <= Percent(count, max) <= 100
    ensures count == max ==> Percent(count, max) == 100
  {
    FullScore(max);
    PercentIsMonotone(count, max, max);
    DivisionIsMonotone(0, 200 * count + max, 2 * max);
  }

  /** Scores lie between 0 and 100, follow the order of the counts, and the largest count scores 100. */
  lemma RadarScoresFollowCounts(dims: seq<DimensionCount>)
    ensures var scores := NormalizeRadarScores(dims);
      && (forall i :: 0 <= i < |scores| ==> 0 <= scores[i].score <= 100)
      && (forall i, j :: 0 <= i < |scores| && 0 <= j < |scores| && scores[i].count <= scores[j].count ==>
            scores[i].score <= scores[j].score)
      && (forall i :: 0 <= i < |scores| && (forall j :: 0 <= j < |scores| ==> scores[j].count <= scores[i].count) ==>
            scores[i].score == 100)
  {
    var data, scores := WithData(dims), NormalizeRadarScores(dims);
    var max := MaxCount(data);
    hide Percent;
    forall i | 0 <= i < |scores|
      ensures 0 <= scores[i].score <= 100 && (scores[i].count == max ==> scores[i].score == 100)
    {
      PercentBounds(scores[i].count, max);
    }
    forall i, j | 0 <= i < |scores| && 0 <= j < |scores| && scores[i].count <= scores[j].count
      ensures scores[i].score <= scores[j].score
    {
      PercentIsMonotone(scores[i].count, scores[j].count, max);
    }
    forall i | 0 <= i < |scores| && (forall j :: 0 <= j < |scores| ==> scores[j].count <= scores[i].count)
      ensures scores[i].count == max
    {
      var k :| 0 <= k < |data| && data[k].count == max;
      assert scores[k].count <= scores[i].count;
    }
  }

  lemma PercentIsNearest(count: nat, max: nat)
    requires max > 0
    ensures (2 * Percent(count, max) - 1) * max <= 200 * count < (2 * Percent(count, max) + 1) * max
  {
    var s := Percent(count, max);
    assert 2 * max * s <= 200 * count + max < 2 * max * s + 2 * max;
    assert (2 * s - 1) * max == 2 * max * s - max && (2 * s + 1) * max == 2 * max * s + max;
  }

  lemma LargestIsMax(dims: seq<DimensionCount>, largest: nat)
    requires forall i :: 0 <= i < |dims| ==> dims[i].count <= largest
    requires exists i :: 0 <= i < |dims| && dims[i].count == largest
    ensures MaxCount(WithData(dims)) == largest
  {
    var data, max := WithData(dims), MaxCount(WithData(dims));
    var top :| 0 <= top < |dims| && dims[top].count == largest;
    hide *;
    DataIffCounted(dims, dims[top]);
    if largest > 0 {
      assert dims[top] in data;
      assert largest <= max;
    }
    if max > 0 {
      var i :| 0 <= i < |data| && data[i].count == max;
      DataIffCounted(dims, data[i]);
      assert data[i] in dims;
      assert max <= largest;
    }
  }

  /** Every score is the whole number nearest to the percentage of the largest count; halves go up. */
  lemma RadarScoresAreNearest(dims: seq<DimensionCount>, largest: nat, i: nat)
    requires forall k :: 0 <= k < |dims| ==> dims[k].count <= largest
    requires exists k :: 0 <= k < |dims| && dims[k].count == largest
    requires i < |NormalizeRadarScores(dims)|
    ensures var s := NormalizeRadarScores(dims)[i];
      s.count > 0 && (2 * s.score - 1) * largest <= 200 * s.count < (2 * s.score + 1) * largest
  {
    LargestIsMax(dims, largest);
    hide Percent;
    PercentIsNearest(WithData(dims)[i].count, largest);
  }

  /** Exactly the dimensions with data are shown. */
  lemma RadarShowsData(dims: seq<DimensionCount>, slug: Slug, n: nat)
    ensures (exists i :: 0 <= i < |NormalizeRadarScores(dims)| && Scores(NormalizeRadarScores(dims)[i], slug, n)) <==>
      n > 0 && DimensionCount(slug, n) in dims
  {
    var data, scores := WithData(dims), NormalizeRadarScores(dims);
    hide Percent;
    DataIffCounted(dims, DimensionCount(slug, n));
    if i :| 0 <= i < |data| && data[i] == DimensionCount(slug, n) {
      assert Scores(scores[i], slug, n);
    }
    if i :| 0 <= i < |scores| && Scores(scores[i], slug, n) {
      assert data[i] == DimensionCount(slug, n);
    }
  }

  predicate Scores(score: RadarScore, slug: Slug, n: nat) { score.slug == slug && score.count == n }

  lemma {:induction false} DataIffCounted(dims: seq<DimensionCount>, d: DimensionCount)
    ensures d in WithData(dims) <==> d in dims && d.count > 0
  {
    if dims != [] {
      DataIffCounted(dims[..|dims| - 1], d);
    }
  }

  // The whole detail

  datatype Detail = Detail(
    actionsByCode: seq<ByCode>, totalActions: nat, matches: seq<MatchLine>, evolution: seq<MonthLine>,
    radar: seq<RadarScore>)

  function SumRadar(radar: seq<RadarScore>): nat {
    if radar == [] then 0 else SumRadar(radar[..|radar| - 1]) + radar[|radar| - 1].count
  }

  lemma {:induction false} RadarKeepsCounts(dims: seq<DimensionCount>, radar: seq<RadarScore>)
    requires |radar| == |dims| && forall i :: 0 <= i < |dims| ==> radar[i].count == dims[i].count
    ensures SumRadar(radar) == SumDimensions(dims)
  {
    if dims != [] {
      RadarKeepsCounts(dims[..|dims| - 1], radar[..|radar| - 1]);
    }
  }

  method TotalOfCodes(actionsByCode: seq<ByCode>) returns (total: nat)
    ensures total == SumCounts(actionsByCode)
  {
    total := 0;
    for i := 0 to |actionsByCode|
      invariant total == SumCounts(actionsByCode[..i])
    {
      assert actionsByCode[..i + 1][..i] == actionsByCode[..i];
      total := total + actionsByCode[i].count;
    }
    assert actionsByCode[..|actionsByCode|] == actionsByCode;
  }

  /** The total is the sum by code, by match, by month and over the radar; the months' matches are all matches. */
  method PlayerDetail(attendance: seq<Attendance>, aggs: seq<Agg>, textOf: string -> string) returns (detail: Detail)
    requires FromQueries(attendance, aggs)
    ensures detail.totalActions == TotalActions(aggs)
    ensures detail.totalActions == SumCounts(detail.actionsByCode)
    ensures detail.totalActions == SumLines(detail.matches)
    ensures detail.totalActions == SumMonthActions(detail.evolution)
    ensures detail.totalActions == SumRadar(detail.radar)
    ensures SumMonthMatches(detail.evolution) == |detail.matches| == |attendance|
  {
    hide IsMerge, IsLine, IsMonthLine, FromQueries, TotalActions, MonthCounts, MonthOnes, AreDimensions, DimensionPairs;
    hide AllDiffer, CountOf;
    var actionsByCode := MergeActionsByCode(aggs);
    var matches := MatchLines(attendance, aggs);
    var evolution := EvolutionByMonth(attendance, aggs);
    var texts := seq(|actionsByCode|, i requires 0 <= i < |actionsByCode| => textOf(actionsByCode[i].name));
    var dims, _ := BuildDimensionCounts(actionsByCode, texts);
    var radar := NormalizeRadarScores(dims);
    RadarKeepsCounts(dims, radar);
    var total := TotalOfCodes(actionsByCode);
    detail := Detail(actionsByCode, total, matches, evolution, radar);
  }
}

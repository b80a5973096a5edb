/** What saving a rule writes to UniFi, policy by policy, against the rule as it was saved, from
    `src/lib/rule-writes.ts`. */
module RuleWrites {
  import opened PolicyNames
  import opened Strings
  import opened Wrappers

  /** A window keeps its policy by its id; one not yet saved has none. */
  datatype Window = Window(id: Option<string>, name: string, days: seq<nat>, start: string, end: string)

  /** A rule as the editor holds it. */
  datatype Draft = Draft(id: string, name: string, useGeneratedName: bool, kind: string, targetIds: seq<nat>, domains: seq<string>,
                         groupIds: seq<string>, always: bool, windows: seq<Window>)

  function NamedOf(d: Draft): NamedRule {
    NamedRule(d.id, d.name, d.useGeneratedName, d.always, WindowNames(d.windows))
  }

  function WindowNames(windows: seq<Window>): (names: seq<string>)
    ensures |names| == |windows|
  {
    if windows == [] then [] else [windows[0].name] + WindowNames(windows[1..])
  }

  // Lists compared.

  function InsertText(x: string, s: seq<string>): seq<string> {
    if s == [] || !Less(s[0], x) then [x] + s else [s[0]] + InsertText(x, s[1..])
  }

  function SortText(s: seq<string>): seq<string> {
    if s == [] then [] else InsertText(s[0], SortText(s[1..]))
  }

  /** `[...a].sort().join() === [...b].sort().join()`. */
  predicate SameList(a: seq<string>, b: seq<string>) {
    Join(SortText(a), ',') == Join(SortText(b), ',')
  }

  predicate NoComma(s: seq<string>) {
    forall k :: 0 <= k < |s| ==> s[k] != "" && Plain(s[k], ',')
  }

  lemma {:induction false} InsertTextKeeps(x: string, s: seq<string>)
    ensures multiset(InsertText(x, s)) == multiset{x} + multiset(s)
  {
    if s != [] && Less(s[0], x) {
      InsertTextKeeps(x, s[1..]);
      assert s == [s[0]] + s[1..];
    }
  }

  lemma {:induction false} SortTextKeeps(s: seq<string>)
    ensures multiset(SortText(s)) == multiset(s)
  {
    if s != [] {
      SortTextKeeps(s[1..]);
      InsertTextKeeps(s[0], SortText(s[1..]));
      assert s == [s[0]] + s[1..];
    }
  }

  lemma {:induction false} InsertsCommute(x: string, y: string, s: seq<string>)
    ensures InsertText(x, InsertText(y, s)) == InsertText(y, InsertText(x, s))
  {
    LessTotal(x, y);
    if s == [] {
    } else {
      var h := s[0];
      LessTotal(h, x);
      LessTotal(h, y);
      if Less(h, x) && Less(h, y) {
        InsertsCommute(x, y, s[1..]);
      } else if Less(h, x) {
        if Less(x, y) { LessTransitive(h, x, y); }
      } else if Less(h, y) {
        if Less(y, x) { LessTransitive(h, y, x); }
      }
    }
  }

  lemma {:induction false} SortTextTakes(s: seq<string>, k: nat)
    requires k < |s|
    ensures SortText(s) == InsertText(s[k], SortText(s[..k] + s[k + 1..]))
  {
    if k == 0 {
      assert s[..0] + s[1..] == s[1..];
    } else {
      var t := s[1..];
      SortTextTakes(t, k - 1);
      var rest := s[..k] + s[k + 1..];
      assert rest[0] == s[0] && rest[1..] == t[..k - 1] + t[k..];
      InsertsCommute(s[0], s[k], SortText(rest[1..]));
    }
  }

  lemma Removed(s: seq<string>, k: nat)
    requires k < |s|
    ensures multiset(s[..k] + s[k + 1..]) == multiset(s) - multiset{s[k]}
  {
    assert s == s[..k] + [s[k]] + s[k + 1..];
  }

  lemma {:induction false} SortTextIgnoresOrder(a: seq<string>, b: seq<string>)
    requires multiset(a) == multiset(b)
    ensures SortText(a) == SortText(b)
    decreases |a|
  {
    if a == [] {
      assert |multiset(b)| == |b|;
    } else {
      assert a[0] in multiset(a);
      assert a[0] in multiset(b);
      var k :| 0 <= k < |b| && b[k] == a[0];
      var rest := b[..k] + b[k + 1..];
      assert a[..0] + a[1..] == a[1..];
      Removed(a, 0);
      Removed(b, k);
      SortTextIgnoresOrder(a[1..], rest);
      SortTextTakes(b, k);
    }
  }

  /** The comparison by sorted and joined text says exactly whether two lists hold the same things, each as
      often, as long as none is empty or holds a comma. */
  lemma SameListIsSame(a: seq<string>, b: seq<string>)
    requires NoComma(a) && NoComma(b)
    ensures SameList(a, b) <==> multiset(a) == multiset(b)
  {
    SortTextKeeps(a);
    SortTextKeeps(b);
    if multiset(a) == multiset(b) { SortTextIgnoresOrder(a, b); }
    if SameList(a, b) {
      SortedNoComma(a);
      SortedNoComma(b);
      JoinedSame(SortText(a), SortText(b));
    }
  }

  lemma SortedNoComma(s: seq<string>)
    requires NoComma(s)
    ensures NoComma(SortText(s))
  {
    SortTextKeeps(s);
    forall k | 0 <= k < |SortText(s)| ensures SortText(s)[k] != "" && Plain(SortText(s)[k], ',') {
      assert SortText(s)[k] in multiset(SortText(s));
      assert SortText(s)[k] in s;
    }
  }

  lemma JoinedSame(a: seq<string>, b: seq<string>)
    requires NoComma(a) && NoComma(b) && Join(a, ',') == Join(b, ',')
    ensures a == b
  {
    assert Split("", ',') == [""];
    if a != [] { SplitJoin(a, ','); }
    if b != [] { SplitJoin(b, ','); }
  }

  // The lists that are compared.

  /** Numbers as `join` prints them. */
  function Texts(numbers: seq<nat>): (r: seq<string>)
    ensures |r| == |numbers|
  {
    if numbers == [] then [] else [Decimal(numbers[0])] + Texts(numbers[1..])
  }

  predicate SameNumbers(a: seq<nat>, b: seq<nat>) {
    SameList(Texts(a), Texts(b))
  }

  lemma {:induction false} TextsNoComma(numbers: seq<nat>)
    ensures NoComma(Texts(numbers))
  {
    if numbers != [] {
      DecimalReads(numbers[0]);
      TextsNoComma(numbers[1..]);
    }
  }

  lemma {:induction false} TextsCount(numbers: seq<nat>, text: string)
    ensures multiset(Texts(numbers))[text] == if text == Decimal(NumberOf(text)) then multiset(numbers)[NumberOf(text)] else 0
  {
    if numbers != [] {
      var n, rest := numbers[0], numbers[1..];
      TextsCount(rest, text);
      DecimalReads(n);
      assert numbers == [n] + rest;
      assert Texts(numbers) == [Decimal(n)] + Texts(rest);
    }
  }

  /** Two lists of numbers compare as the same exactly when they hold the same numbers, each as often. */
  lemma SameNumbersIsSame(a: seq<nat>, b: seq<nat>)
    ensures SameNumbers(a, b) <==> multiset(a) == multiset(b)
  {
    TextsNoComma(a);
    TextsNoComma(b);
    SameListIsSame(Texts(a), Texts(b));
    forall text
      ensures multiset(Texts(a))[text] == (if text == Decimal(NumberOf(text)) then multiset(a)[NumberOf(text)] else 0)
      ensures multiset(Texts(b))[text] == (if text == Decimal(NumberOf(text)) then multiset(b)[NumberOf(text)] else 0) {
      TextsCount(a, text);
      TextsCount(b, text);
    }
    if multiset(Texts(a)) == multiset(Texts(b)) {
      forall n: nat ensures multiset(a)[n] == multiset(b)[n] {
        DecimalReads(n);
        assert multiset(Texts(a))[Decimal(n)] == multiset(Texts(b))[Decimal(n)];
      }
    }
  }

  /** What a website is once normalised, and what an id is. */
  predicate Hostname(s: string) {
    s != "" && forall k :: 0 <= k < |s| ==> 'a' <= s[k] <= 'z' || '0' <= s[k] <= '9' || s[k] == '.' || s[k] == '-'
  }

  predicate IdText(s: string) {
    s != "" && forall k :: 0 <= k < |s| ==> 'a' <= s[k] <= 'z' || 'A' <= s[k] <= 'Z' || '0' <= s[k] <= '9' || s[k] == '-' || s[k] == '_'
  }

  /** A rule whose websites are normalised and whose groups are ids, as every rule the editor holds. */
  predicate Normalised(d: Draft) {
    && (forall k :: 0 <= k < |d.domains| ==> Hostname(d.domains[k]))
    && (forall k :: 0 <= k < |d.groupIds| ==> IdText(d.groupIds[k]))
  }

  /** So none of the texts that are compared is empty or holds a comma. */
  lemma NormalisedNoComma(d: Draft)
    requires Normalised(d)
    ensures NoComma(d.domains) && NoComma(d.groupIds)
  {
    forall k | 0 <= k < |d.domains| ensures Plain(d.domains[k], ',') { assert Hostname(d.domains[k]); }
    forall k | 0 <= k < |d.groupIds| ensures Plain(d.groupIds[k], ',') { assert IdText(d.groupIds[k]); }
  }

  // The plan.

  datatype Verb = New | Change | Delete | Keep

  /** A rule with the names of its policies, one for each. */
  datatype Named = Named(rule: Draft, names: seq<string>)

  type Policies = p: Named | |p.names| == (if p.rule.always then 1 else |p.rule.windows|)
    witness Named(Draft("", "", false, "", [], [], [], false, []), [])

  function PoliciesOf(d: Draft): Policies {
    Named(d, RulePolicyNames(NamedOf(d)))
  }

  /** The names are the rule's own, and its windows' in their order. */
  lemma PoliciesSay(d: Draft, named: NamedRule, k: nat)
    requires named.id == d.id && named.name == d.name && (named.useGeneratedName <==> d.useGeneratedName) && (named.always <==> d.always)
    requires |named.windows| == |d.windows| && forall j :: 0 <= j < |d.windows| ==> named.windows[j] == d.windows[j].name
    requires k < |PoliciesOf(d).names|
    ensures PoliciesOf(d).rule == d && exists text :: SaysText(named, k, text) && Fits(text, PoliciesOf(d).names[k])
  {
    WindowNamesAre(d.windows);
    assert named == NamedOf(d);
    NamesSay(named, k);
  }

  lemma {:induction false} WindowNamesAre(windows: seq<Window>)
    ensures forall j :: 0 <= j < |windows| ==> WindowNames(windows)[j] == windows[j].name
  {
    if windows != [] { WindowNamesAre(windows[1..]); }
  }

  /** One entry: what it does under which name, and which of the saved rule's policies and of the draft's it
      is about. */
  datatype Write = Write(verb: Verb, name: string, saved: Option<nat>, drafted: Option<nat>)

  function FindWindow(windows: seq<Window>, id: Option<string>): Option<nat> {
    if windows == [] then None
    else if windows[0].id == id then Some(0)
    else
      match FindWindow(windows[1..], id)
      case None => None
      case Some(at) => Some(at + 1)
  }

  predicate TimesChanged(before: Window, after: Window) {
    before.start != after.start || before.end != after.end || !SameNumbers(before.days, after.days)
  }

  /** Something every policy of the rule carries changed: what it blocks, or for which groups. */
  predicate SharedChange(saved: Option<Policies>, draft: Policies) {
    saved.Some? && (
      || saved.value.rule.kind != draft.rule.kind || !SameNumbers(saved.value.rule.targetIds, draft.rule.targetIds) || !SameList(saved.value.rule.domains, draft.rule.domains)
      || !SameList(saved.value.rule.groupIds, draft.rule.groupIds))
  }

  function Changed(name: string, before: string, reasons: bool, shared: bool, saved: nat, drafted: nat): Write {
    Write(if before != name || reasons || shared then Change else Keep, name, Some(saved), Some(drafted))
  }

  predicate WasAlways(saved: Option<Policies>) {
    saved.Some? && saved.value.rule.always
  }

  function SavedWindows(saved: Option<Policies>): seq<Window> {
    if saved.Some? && !saved.value.rule.always then saved.value.rule.windows else []
  }

  /** Which saved window a drafted one is: a window without an id has not been saved. */
  function SavedAt(saved: Option<Policies>, w: Window): Option<nat> {
    if w.id.Some? && w.id.value != "" then FindWindow(SavedWindows(saved), w.id) else None
  }

  lemma {:induction false} FindWindowIs(windows: seq<Window>, id: Option<string>)
    ensures
      match FindWindow(windows, id)
      case Some(at) => at < |windows| && windows[at].id == id && forall k :: 0 <= k < at ==> windows[k].id != id
      case None => forall k :: 0 <= k < |windows| ==> windows[k].id != id
  {
    if windows != [] {
      FindWindowIs(windows[1..], id);
      forall k | 0 < k < |windows| ensures windows[k] == windows[1..][k - 1] {}
    }
  }

  lemma SavedAtFits(saved: Option<Policies>, w: Window)
    ensures SavedAt(saved, w).Some? ==> saved.Some? && !saved.value.rule.always && SavedAt(saved, w).value < |saved.value.rule.windows|
                                        && saved.value.rule.windows[SavedAt(saved, w).value].id == w.id
  {
    FindWindowIs(SavedWindows(saved), w.id);
  }

  function WindowWrite(saved: Option<Policies>, draft: Policies, i: nat): Write
    requires !draft.rule.always && i < |draft.rule.windows|
  {
    SavedAtFits(saved, draft.rule.windows[i]);
    var at := SavedAt(saved, draft.rule.windows[i]);
    if at.None? then Write(New, draft.names[i], None, Some(i))
    else
      Changed(draft.names[i], saved.value.names[at.value],
              TimesChanged(saved.value.rule.windows[at.value], draft.rule.windows[i]), SharedChange(saved, draft), at.value, i)
  }

  /** The entries of the drafted windows, the first `n` of them. */
  function WindowWrites(saved: Option<Policies>, draft: Policies, n: nat): seq<Write>
    requires !draft.rule.always && n <= |draft.rule.windows|
  {
    if n == 0 then [] else WindowWrites(saved, draft, n - 1) + [WindowWrite(saved, draft, n - 1)]
  }

  predicate Drafted(draft: Policies, w: Window) {
    exists k :: 0 <= k < |draft.rule.windows| && draft.rule.windows[k].id == w.id
  }

  /** The entries of the saved windows the draft no longer has, among the first `n`; all of them when the
      draft is always on. */
  function Deletes(saved: Policies, draft: Policies, n: nat): seq<Write>
    requires !saved.rule.always && n <= |saved.rule.windows|
  {
    if n == 0 then []
    else if !draft.rule.always && Drafted(draft, saved.rule.windows[n - 1]) then Deletes(saved, draft, n - 1)
    else Deletes(saved, draft, n - 1) + [Write(Delete, saved.names[n - 1], Some(n - 1), None)]
  }

  function Plan(saved: Option<Policies>, draft: Policies): seq<Write> {
    var removed := if saved.Some? && !saved.value.rule.always then Deletes(saved.value, draft, |saved.value.rule.windows|) else [];
    if draft.rule.always then
      [if WasAlways(saved) then Changed(draft.names[0], saved.value.names[0], false, SharedChange(saved, draft), 0, 0)
       else Write(New, draft.names[0], None, Some(0))]
      + removed
    else
      (if WasAlways(saved) then [Write(Delete, saved.value.names[0], Some(0), None)] else [])
      + WindowWrites(saved, draft, |draft.rule.windows|) + removed
  }

  method RuleWritePlan(saved: Option<Draft>, draft: Draft) returns (writes: seq<Write>)
    ensures writes == Plan(if saved.Some? then Some(PoliciesOf(saved.value)) else None, PoliciesOf(draft))
  {
    writes := PlanWrites(if saved.Some? then Some(PoliciesOf(saved.value)) else None, PoliciesOf(draft));
  }

  method PlanWrites(saved: Option<Policies>, draft: Policies) returns (writes: seq<Write>)
    ensures writes == Plan(saved, draft)
  {
    var shared := SharedChange(saved, draft);
    writes := [];
    if draft.rule.always {
      var name := draft.names[0];
      if WasAlways(saved) {
        writes := writes + [Changed(name, saved.value.names[0], false, shared, 0, 0)];
      } else {
        writes := writes + [Write(New, name, None, Some(0))];
      }
      if saved.Some? && !saved.value.rule.always {
        var removed := RemovedWrites(saved.value, draft);
        writes := writes + removed;
      }
      return;
    }
    if WasAlways(saved) { writes := writes + [Write(Delete, saved.value.names[0], Some(0), None)]; }
    for i := 0 to |draft.rule.windows|
      invariant writes == (if WasAlways(saved) then [Write(Delete, saved.value.names[0], Some(0), None)] else [])
                          + WindowWrites(saved, draft, i)
    {
      SavedAtFits(saved, draft.rule.windows[i]);
      var at := SavedAt(saved, draft.rule.windows[i]);
      if at.None? {
        writes := writes + [Write(New, draft.names[i], None, Some(i))];
      } else {
        var before := saved.value.rule.windows[at.value];
        writes := writes + [Changed(draft.names[i], saved.value.names[at.value], TimesChanged(before, draft.rule.windows[i]), shared, at.value, i)];
      }
    }
    if saved.Some? && !saved.value.rule.always {
      var removed := RemovedWrites(saved.value, draft);
      writes := writes + removed;
    }
  }

  method RemovedWrites(saved: Policies, draft: Policies) returns (writes: seq<Write>)
    requires !saved.rule.always
    ensures writes == Deletes(saved, draft, |saved.rule.windows|)
  {
    writes := [];
    for n := 0 to |saved.rule.windows|
      invariant writes == Deletes(saved, draft, n)
    {
      if draft.rule.always || !Drafted(draft, saved.rule.windows[n]) {
        writes := writes + [Write(Delete, saved.names[n], Some(n), None)];
      }
    }
  }

  // Every policy once.

  /** How many entries are about policy `j` of the saved rule, or of the draft. */
  function Count(writes: seq<Write>, j: nat, ofSaved: bool): nat {
    if writes == [] then 0
    else
      var last := writes[|writes| - 1];
      Count(writes[..|writes| - 1], j, ofSaved) + if (if ofSaved then last.saved else last.drafted) == Some(j) then 1 else 0
  }

  lemma {:induction false} CountJoins(a: seq<Write>, b: seq<Write>, j: nat, ofSaved: bool)
    ensures Count(a + b, j, ofSaved) == Count(a, j, ofSaved) + Count(b, j, ofSaved)
  {
    if b == [] {
      assert a + b == a;
    } else {
      assert (a + b)[..|a + b| - 1] == a + b[..|b| - 1];
      CountJoins(a, b[..|b| - 1], j, ofSaved);
    }
  }

  lemma CountMore(writes: seq<Write>, one: Write, j: nat, ofSaved: bool)
    ensures Count(writes + [one], j, ofSaved) == Count(writes, j, ofSaved) + if (if ofSaved then one.saved else one.drafted) == Some(j) then 1 else 0
  {
    assert (writes + [one])[..|writes|] == writes;
  }

  /** Windows that have an id have one of their own, and a saved window has one. */
  ghost predicate UniqueIds(windows: seq<Window>) {
    forall i, j :: 0 <= i < j < |windows| && windows[i].id.Some? ==> windows[i].id != windows[j].id
  }

  ghost predicate Stored(windows: seq<Window>) {
    UniqueIds(windows) && forall k :: 0 <= k < |windows| ==> windows[k].id.Some? && windows[k].id.value != ""
  }

  lemma {:induction false} DeletesCount(saved: Policies, draft: Policies, n: nat, j: nat)
    requires !saved.rule.always && n <= |saved.rule.windows|
    ensures Count(Deletes(saved, draft, n), j, true) == if j < n && (draft.rule.always || !Drafted(draft, saved.rule.windows[j])) then 1 else 0
    ensures Count(Deletes(saved, draft, n), j, false) == 0
  {
    if n > 0 {
      DeletesCount(saved, draft, n - 1, j);
      var one := Write(Delete, saved.names[n - 1], Some(n - 1), None);
      CountMore(Deletes(saved, draft, n - 1), one, j, true);
      CountMore(Deletes(saved, draft, n - 1), one, j, false);
    }
  }

  predicate DraftedAmong(draft: Policies, n: nat, w: Window)
    requires n <= |draft.rule.windows|
  {
    exists k :: 0 <= k < n && draft.rule.windows[k].id == w.id
  }

  lemma DraftedNext(draft: Policies, n: nat, w: Window)
    requires 0 < n <= |draft.rule.windows| && UniqueIds(draft.rule.windows) && w.id.Some?
    ensures DraftedAmong(draft, n, w) <==> DraftedAmong(draft, n - 1, w) || draft.rule.windows[n - 1].id == w.id
    ensures !(DraftedAmong(draft, n - 1, w) && draft.rule.windows[n - 1].id == w.id)
  {
  }

  lemma CountSnoc(writes: seq<Write>, w: Write, j: nat)
    ensures Count(writes + [w], j, true) == Count(writes, j, true) + if w.saved == Some(j) then 1 else 0
    ensures Count(writes + [w], j, false) == Count(writes, j, false) + if w.drafted == Some(j) then 1 else 0
  {
    assert (writes + [w])[..|writes|] == writes;
  }

  lemma WindowWriteIs(saved: Option<Policies>, draft: Policies, i: nat, j: nat)
    requires !draft.rule.always && i < |draft.rule.windows| && Stored(SavedWindows(saved))
    ensures WindowWrite(saved, draft, i).drafted == Some(i)
    ensures WindowWrite(saved, draft, i).saved == Some(j) <==> j < |SavedWindows(saved)| && SavedWindows(saved)[j].id == draft.rule.windows[i].id
  {
    SavedAtIs(saved, draft.rule.windows[i], j);
  }

  /** Saved window `j` is one of the first `n` the draft has. */
  predicate Matched(saved: Option<Policies>, draft: Policies, n: nat, j: nat)
    requires n <= |draft.rule.windows|
  {
    j < |SavedWindows(saved)| && DraftedAmong(draft, n, SavedWindows(saved)[j])
  }

  lemma MatchedNext(saved: Option<Policies>, draft: Policies, n: nat, j: nat)
    requires !draft.rule.always && 0 < n <= |draft.rule.windows| && UniqueIds(draft.rule.windows) && Stored(SavedWindows(saved))
    ensures Matched(saved, draft, n, j) <==> Matched(saved, draft, n - 1, j) || WindowWrite(saved, draft, n - 1).saved == Some(j)
    ensures !(Matched(saved, draft, n - 1, j) && WindowWrite(saved, draft, n - 1).saved == Some(j))
  {
    WindowWriteIs(saved, draft, n - 1, j);
    if j < |SavedWindows(saved)| { DraftedNext(draft, n, SavedWindows(saved)[j]); }
  }

  lemma NextWindowCounts(saved: Option<Policies>, draft: Policies, n: nat, j: nat, before: seq<Write>)
    requires !draft.rule.always && 0 < n <= |draft.rule.windows| && UniqueIds(draft.rule.windows) && Stored(SavedWindows(saved))
    requires Count(before, j, true) == if Matched(saved, draft, n - 1, j) then 1 else 0
    requires Count(before, j, false) == if j < n - 1 then 1 else 0
    ensures Count(before + [WindowWrite(saved, draft, n - 1)], j, true) == if Matched(saved, draft, n, j) then 1 else 0
    ensures Count(before + [WindowWrite(saved, draft, n - 1)], j, false) == if j < n then 1 else 0
  {
    CountSnoc(before, WindowWrite(saved, draft, n - 1), j);
    WindowWriteIs(saved, draft, n - 1, j);
    MatchedNext(saved, draft, n, j);
  }

  lemma {:induction false} WindowsCount(saved: Option<Policies>, draft: Policies, n: nat, j: nat)
    requires !draft.rule.always && n <= |draft.rule.windows| && UniqueIds(draft.rule.windows) && Stored(SavedWindows(saved))
    ensures Count(WindowWrites(saved, draft, n), j, true) == if Matched(saved, draft, n, j) then 1 else 0
    ensures Count(WindowWrites(saved, draft, n), j, false) == if j < n then 1 else 0
  {
    if n > 0 {
      WindowsCount(saved, draft, n - 1, j);
      NextWindowCounts(saved, draft, n, j, WindowWrites(saved, draft, n - 1));
    }
  }

  lemma SavedAtIs(saved: Option<Policies>, w: Window, j: nat)
    requires Stored(SavedWindows(saved))
    ensures SavedAt(saved, w) == Some(j) <==> j < |SavedWindows(saved)| && SavedWindows(saved)[j].id == w.id
  {
    FindWindowIs(SavedWindows(saved), w.id);
  }

  /** The plan accounts for every policy once: each of the saved rule's is changed, kept or deleted by exactly
      one entry, each of the draft's is made, changed or kept by exactly one, and no entry is about any
      other. */
  lemma EveryPolicyOnce(saved: Option<Policies>, draft: Policies, j: nat)
    requires UniqueIds(draft.rule.windows) && Stored(SavedWindows(saved))
    ensures Count(Plan(saved, draft), j, true) == if saved.Some? && j < |saved.value.names| then 1 else 0
    ensures Count(Plan(saved, draft), j, false) == if j < |draft.names| then 1 else 0
  {
    var removed := if saved.Some? && !saved.value.rule.always then Deletes(saved.value, draft, |saved.value.rule.windows|) else [];
    if saved.Some? && !saved.value.rule.always { DeletesCount(saved.value, draft, |saved.value.rule.windows|, j); }
    if draft.rule.always {
      var first := [Plan(saved, draft)[0]];
      assert Plan(saved, draft) == first + removed;
      CountOne(first[0], j);
      CountJoins(first, removed, j, true);
      CountJoins(first, removed, j, false);
    } else {
      var first := if WasAlways(saved) then [Write(Delete, saved.value.names[0], Some(0), None)] else [];
      var windows := WindowWrites(saved, draft, |draft.rule.windows|);
      WindowsCount(saved, draft, |draft.rule.windows|, j);
      if first != [] { CountOne(first[0], j); }
      CountThree(first, windows, removed, j);
    }
  }

  lemma CountThree(a: seq<Write>, b: seq<Write>, c: seq<Write>, j: nat)
    ensures Count(a + b + c, j, true) == Count(a, j, true) + Count(b, j, true) + Count(c, j, true)
    ensures Count(a + b + c, j, false) == Count(a, j, false) + Count(b, j, false) + Count(c, j, false)
  {
    CountJoins(a, b, j, true);
    CountJoins(a, b, j, false);
    CountJoins(a + b, c, j, true);
    CountJoins(a + b, c, j, false);
  }

  lemma CountOne(w: Write, j: nat)
    ensures Count([w], j, true) == if w.saved == Some(j) then 1 else 0
    ensures Count([w], j, false) == if w.drafted == Some(j) then 1 else 0
  {
    assert [w][..0] == [];
  }

  /** What each entry says it does is what it does: new only in the draft, deleted only in the saved rule,
      changed or kept in both, under the draft's name for what stays. */
  ghost predicate Sound(saved: Option<Policies>, draft: Policies, w: Write) {
    && (w.verb.New? <==> w.saved.None?) && (w.verb.Delete? <==> w.drafted.None?)
    && (w.drafted.Some? ==> w.drafted.value < |draft.names| && w.name == draft.names[w.drafted.value])
    && (w.verb.Delete? ==> w.saved.Some? && saved.Some? && w.saved.value < |saved.value.names| && w.name == saved.value.names[w.saved.value])
  }

  lemma {:induction false} DeletesSound(saved: Policies, draft: Policies, n: nat)
    requires !saved.rule.always && n <= |saved.rule.windows|
    ensures forall w :: w in Deletes(saved, draft, n) ==> Sound(Some(saved), draft, w) && w.verb.Delete?
  {
    if n > 0 { DeletesSound(saved, draft, n - 1); }
  }

  lemma {:induction false} WindowsSound(saved: Option<Policies>, draft: Policies, n: nat)
    requires !draft.rule.always && n <= |draft.rule.windows|
    ensures forall w :: w in WindowWrites(saved, draft, n) ==> Sound(saved, draft, w)
  {
    if n > 0 { WindowsSound(saved, draft, n - 1); }
  }

  lemma EveryEntrySound(saved: Option<Policies>, draft: Policies, w: Write)
    requires w in Plan(saved, draft)
    ensures Sound(saved, draft, w)
  {
    if saved.Some? && !saved.value.rule.always { DeletesSound(saved.value, draft, |saved.value.rule.windows|); }
    if !draft.rule.always { WindowsSound(saved, draft, |draft.rule.windows|); }
  }

  // Nothing to write.

  predicate AllKeep(writes: seq<Write>) {
    forall k :: 0 <= k < |writes| ==> writes[k].verb.Keep?
  }

  /** Window `i` of the draft is saved window `at`, with its name and times. */
  predicate WindowKept(saved: Policies, draft: Policies, i: nat)
    requires !saved.rule.always && !draft.rule.always && i < |draft.rule.windows|
  {
    var at := SavedAt(Some(saved), draft.rule.windows[i]);
    SavedAtFits(Some(saved), draft.rule.windows[i]);
    at.Some? && saved.names[at.value] == draft.names[i] && !TimesChanged(saved.rule.windows[at.value], draft.rule.windows[i])
  }

  /** Nothing the plan compares has changed. */
  ghost predicate Unmoved(saved: Option<Policies>, draft: Policies) {
    && saved.Some? && !SharedChange(saved, draft) && saved.value.rule.always == draft.rule.always
    && (draft.rule.always ==> saved.value.names[0] == draft.names[0])
    && (!draft.rule.always ==>
          && (forall i :: 0 <= i < |draft.rule.windows| ==> WindowKept(saved.value, draft, i))
          && forall j :: 0 <= j < |saved.value.rule.windows| ==> Drafted(draft, saved.value.rule.windows[j]))
  }

  /** Saved window `j` stays as window `i` of the draft: known by the same id, its policy under the same name,
      at the same times of the same days. */
  predicate Stays(saved: Policies, draft: Policies, i: nat, j: nat)
    requires !saved.rule.always && !draft.rule.always && i < |draft.rule.windows| && j < |saved.rule.windows|
  {
    var before, after := saved.rule.windows[j], draft.rule.windows[i];
    && before.id == after.id && saved.names[j] == draft.names[i]
    && before.start == after.start && before.end == after.end && multiset(before.days) == multiset(after.days)
  }

  ghost predicate WasSaved(saved: Policies, draft: Policies, i: nat)
    requires !saved.rule.always && !draft.rule.always && i < |draft.rule.windows|
  {
    exists j :: 0 <= j < |saved.rule.windows| && Stays(saved, draft, i, j)
  }

  ghost predicate StillDrafted(saved: Policies, draft: Policies, j: nat)
    requires !saved.rule.always && !draft.rule.always && j < |saved.rule.windows|
  {
    exists i :: 0 <= i < |draft.rule.windows| && Stays(saved, draft, i, j)
  }

  /** Nothing UniFi holds would change: the rule blocks the same things for the same groups, in whatever order
      they are listed, on the same kind of schedule, under the same names; and the drafted windows are the
      saved ones, each as it was. */
  ghost predicate Unchanged(saved: Option<Policies>, draft: Policies) {
    && saved.Some?
    && (var before, after := saved.value.rule, draft.rule;
        && before.kind == after.kind && multiset(before.targetIds) == multiset(after.targetIds)
        && multiset(before.domains) == multiset(after.domains) && multiset(before.groupIds) == multiset(after.groupIds)
        && before.always == after.always
        && (after.always ==> saved.value.names[0] == draft.names[0])
        && (!after.always ==>
              && (forall i :: 0 <= i < |after.windows| ==> WasSaved(saved.value, draft, i))
              && forall j :: 0 <= j < |before.windows| ==> StillDrafted(saved.value, draft, j)))
  }

  lemma SharedIsSame(saved: Policies, draft: Policies)
    requires Normalised(saved.rule) && Normalised(draft.rule)
    ensures SharedChange(Some(saved), draft) <==>
              !(saved.rule.kind == draft.rule.kind && multiset(saved.rule.targetIds) == multiset(draft.rule.targetIds)
                && multiset(saved.rule.domains) == multiset(draft.rule.domains) && multiset(saved.rule.groupIds) == multiset(draft.rule.groupIds))
  {
    NormalisedNoComma(saved.rule);
    NormalisedNoComma(draft.rule);
    SameNumbersIsSame(saved.rule.targetIds, draft.rule.targetIds);
    SameListIsSame(saved.rule.domains, draft.rule.domains);
    SameListIsSame(saved.rule.groupIds, draft.rule.groupIds);
  }

  /** A window is kept exactly when it stays as the saved window with its id. */
  lemma KeptIsStays(saved: Policies, draft: Policies, i: nat)
    requires !saved.rule.always && !draft.rule.always && i < |draft.rule.windows| && Stored(saved.rule.windows)
    ensures WindowKept(saved, draft, i) <==> WasSaved(saved, draft, i)
  {
    var w := draft.rule.windows[i];
    SavedAtFits(Some(saved), w);
    forall j | 0 <= j < |saved.rule.windows|
      ensures SavedAt(Some(saved), w) == Some(j) <==> saved.rule.windows[j].id == w.id
      ensures !TimesChanged(saved.rule.windows[j], w) <==>
                saved.rule.windows[j].start == w.start && saved.rule.windows[j].end == w.end && multiset(saved.rule.windows[j].days) == multiset(w.days) {
      SavedAtIs(Some(saved), w, j);
      SameNumbersIsSame(saved.rule.windows[j].days, w.days);
    }
    if WindowKept(saved, draft, i) { assert Stays(saved, draft, i, SavedAt(Some(saved), w).value); }
  }

  /** Once every drafted window stays as a saved one, a saved window is drafted exactly when it stays as one. */
  lemma DraftedStays(saved: Policies, draft: Policies, j: nat)
    requires !saved.rule.always && !draft.rule.always && j < |saved.rule.windows| && Stored(saved.rule.windows)
    requires forall i :: 0 <= i < |draft.rule.windows| ==> WasSaved(saved, draft, i)
    ensures Drafted(draft, saved.rule.windows[j]) <==> StillDrafted(saved, draft, j)
  {
    if Drafted(draft, saved.rule.windows[j]) {
      var i :| 0 <= i < |draft.rule.windows| && draft.rule.windows[i].id == saved.rule.windows[j].id;
      assert WasSaved(saved, draft, i);
      var k :| 0 <= k < |saved.rule.windows| && Stays(saved, draft, i, k);
      assert saved.rule.windows[k].id == saved.rule.windows[j].id;
    }
  }

  /** What the plan compares tells exactly whether anything has changed. */
  lemma UnmovedIsUnchanged(saved: Option<Policies>, draft: Policies)
    requires Normalised(draft.rule) && (saved.Some? ==> Normalised(saved.value.rule)) && Stored(SavedWindows(saved))
    ensures Unmoved(saved, draft) <==> Unchanged(saved, draft)
  {
    if saved.Some? {
      SharedIsSame(saved.value, draft);
      if !saved.value.rule.always && !draft.rule.always {
        forall i | 0 <= i < |draft.rule.windows|
          ensures WindowKept(saved.value, draft, i) <==> WasSaved(saved.value, draft, i) {
          KeptIsStays(saved.value, draft, i);
        }
        if forall i :: 0 <= i < |draft.rule.windows| ==> WindowKept(saved.value, draft, i) {
          forall j | 0 <= j < |saved.value.rule.windows|
            ensures Drafted(draft, saved.value.rule.windows[j]) <==> StillDrafted(saved.value, draft, j) {
            DraftedStays(saved.value, draft, j);
          }
        }
      }
    }
  }

  lemma {:induction false} DeletesNone(saved: Policies, draft: Policies, n: nat)
    requires !saved.rule.always && n <= |saved.rule.windows|
    ensures AllKeep(Deletes(saved, draft, n)) <==> forall j :: 0 <= j < n ==> !draft.rule.always && Drafted(draft, saved.rule.windows[j])
  {
    if n > 0 {
      DeletesNone(saved, draft, n - 1);
      var last := Drafted(draft, saved.rule.windows[n - 1]);
      AllKeepSnoc(Deletes(saved, draft, n - 1), Write(Delete, saved.names[n - 1], Some(n - 1), None));
    }
  }

  lemma AllKeepSnoc(writes: seq<Write>, w: Write)
    ensures AllKeep(writes + [w]) <==> AllKeep(writes) && w.verb.Keep?
  {
    if AllKeep(writes + [w]) {
      assert (writes + [w])[|writes|] == w;
      forall k | 0 <= k < |writes| ensures writes[k].verb.Keep? { assert (writes + [w])[k] == writes[k]; }
    }
  }

  lemma AllKeepJoins(a: seq<Write>, b: seq<Write>)
    ensures AllKeep(a + b) <==> AllKeep(a) && AllKeep(b)
  {
    if AllKeep(a + b) {
      forall k | 0 <= k < |a| ensures a[k].verb.Keep? { assert (a + b)[k] == a[k]; }
      forall k | 0 <= k < |b| ensures b[k].verb.Keep? { assert (a + b)[|a| + k] == b[k]; }
    }
  }

  predicate EntryKept(saved: Option<Policies>, draft: Policies, i: nat)
    requires !draft.rule.always && i < |draft.rule.windows|
  {
    saved.Some? && !saved.value.rule.always && WindowKept(saved.value, draft, i) && !SharedChange(saved, draft)
  }

  lemma {:induction false} WindowsKeep(saved: Option<Policies>, draft: Policies, n: nat)
    requires !draft.rule.always && n <= |draft.rule.windows|
    ensures AllKeep(WindowWrites(saved, draft, n)) <==>
              forall i :: 0 <= i < n ==> EntryKept(saved, draft, i)
  {
    if n > 0 {
      WindowsKeep(saved, draft, n - 1);
      AllKeepSnoc(WindowWrites(saved, draft, n - 1), WindowWrite(saved, draft, n - 1));
      SavedAtFits(saved, draft.rule.windows[n - 1]);
      assert WindowWrite(saved, draft, n - 1).verb.Keep? <==> EntryKept(saved, draft, n - 1);
    }
  }

  lemma KeptTogether(saved: Option<Policies>, draft: Policies)
    requires !draft.rule.always && draft.rule.windows != []
    ensures (forall i :: 0 <= i < |draft.rule.windows| ==> EntryKept(saved, draft, i)) <==>
              && saved.Some? && !saved.value.rule.always && !SharedChange(saved, draft)
              && forall i :: 0 <= i < |draft.rule.windows| ==> WindowKept(saved.value, draft, i)
  {
    var first := EntryKept(saved, draft, 0);
    if saved.Some? && !saved.value.rule.always {
      forall i | 0 <= i < |draft.rule.windows| ensures EntryKept(saved, draft, i) <==> WindowKept(saved.value, draft, i) && !SharedChange(saved, draft) {}
    }
  }

  lemma KeepsExactlyUnmoved(saved: Option<Policies>, draft: Policies)
    requires draft.rule.always || draft.rule.windows != []
    ensures AllKeep(Plan(saved, draft)) <==> Unmoved(saved, draft)
  {
    var removed := if saved.Some? && !saved.value.rule.always then Deletes(saved.value, draft, |saved.value.rule.windows|) else [];
    if saved.Some? && !saved.value.rule.always { DeletesNone(saved.value, draft, |saved.value.rule.windows|); }
    if draft.rule.always {
      var first := [Plan(saved, draft)[0]];
      assert Plan(saved, draft) == first + removed;
      AllKeepJoins(first, removed);
      AllKeepSnoc([], first[0]);
      assert [] + first == first;
    } else {
      var first := if WasAlways(saved) then [Write(Delete, saved.value.names[0], Some(0), None)] else [];
      var windows := WindowWrites(saved, draft, |draft.rule.windows|);
      WindowsKeep(saved, draft, |draft.rule.windows|);
      AllKeepJoins(first, windows);
      AllKeepJoins(first + windows, removed);
      if first != [] { assert !first[0].verb.Keep?; }
      KeptTogether(saved, draft);
    }
  }

  /** A scheduled draft without a window keeps nothing: each policy of the saved rule is deleted. */
  lemma EmptyDeletes(saved: Option<Policies>, draft: Policies)
    requires !draft.rule.always && draft.rule.windows == []
    ensures forall k :: 0 <= k < |Plan(saved, draft)| ==> Plan(saved, draft)[k].verb.Delete?
    ensures |Plan(saved, draft)| == if saved.Some? then |saved.value.names| else 0
  {
    if saved.Some? && !saved.value.rule.always {
      var n := |saved.value.rule.windows|;
      DeletesSound(saved.value, draft, n);
      DeletesAll(saved.value, draft, n);
      var writes := Deletes(saved.value, draft, n);
      assert Plan(saved, draft) == writes;
      forall k | 0 <= k < |writes| ensures writes[k].verb.Delete? { assert writes[k] in writes; }
    }
  }

  lemma {:induction false} DeletesAll(saved: Policies, draft: Policies, n: nat)
    requires !saved.rule.always && n <= |saved.rule.windows| && draft.rule.windows == []
    ensures |Deletes(saved, draft, n)| == n
  {
    if n > 0 { DeletesAll(saved, draft, n - 1); }
  }

  /** The plan keeps everything exactly when nothing UniFi holds would change, or when there is nothing at
      all: no policy saved and none drafted. */
  lemma KeepsExactlyUnchanged(saved: Option<Policies>, draft: Policies)
    requires Normalised(draft.rule) && (saved.Some? ==> Normalised(saved.value.rule)) && Stored(SavedWindows(saved))
    ensures Plan(saved, draft) == [] <==> draft.names == [] && (saved.None? || saved.value.names == [])
    ensures AllKeep(Plan(saved, draft)) <==> Plan(saved, draft) == [] || Unchanged(saved, draft)
  {
    UnmovedIsUnchanged(saved, draft);
    if draft.rule.always || draft.rule.windows != [] {
      KeepsExactlyUnmoved(saved, draft);
      EveryDraftedWritten(saved, draft);
    } else {
      EmptyDeletes(saved, draft);
      if Plan(saved, draft) != [] { assert Plan(saved, draft)[0].verb.Delete?; }
    }
  }

  lemma EveryDraftedWritten(saved: Option<Policies>, draft: Policies)
    requires draft.rule.always || draft.rule.windows != []
    ensures Plan(saved, draft) != []
  {
  }
}

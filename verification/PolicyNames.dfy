/** Names of the UniFi policies FamilyFi writes for a rule, from `src/lib/policy-names.ts`: one for an
    always-on rule, one for each window of a scheduled one, each a label for the household and never
    what a policy is known by. */
module PolicyNames {
  import opened Strings

  datatype NamedRule = NamedRule(id: string, name: string, useGeneratedName: bool, always: bool, windows: seq<string>)

  const PREFIX := "FamilyFi "
  const MAX_POLICY_NAME := 100

  function Decimal(n: nat): string {
    if n < 10 then [('0' as int + n) as char] else Decimal(n / 10) + [('0' as int + n % 10) as char]
  }

  function TrimEnd(s: string): string {
    if s != "" && IsSpace(s[|s| - 1]) then TrimEnd(s[..|s| - 1]) else s
  }

  function Base(d: NamedRule): string {
    if d.useGeneratedName then "Rule " + UpperCase(if |d.id| <= 4 then d.id else d.id[|d.id| - 4..])
    else if Trim(d.name) != "" then Trim(d.name) else "Untitled rule"
  }

  function Label(name: string, index: nat): string {
    if Trim(name) != "" then Trim(name) else "Window " + Decimal(index + 1)
  }

  function Clip(name: string): string {
    if |name| <= MAX_POLICY_NAME then name else TrimEnd(name[..MAX_POLICY_NAME - 1]) + "…"
  }

  /** The policy of window `index`, or of an always-on rule when it is 0. */
  function PolicyName(d: NamedRule, index: nat): string
    requires d.always || index < |d.windows|
  {
    var base := Base(d);
    Clip(PREFIX + if d.always || |d.windows| <= 1 then base else base + " – " + Label(d.windows[index], index))
  }

  function PolicyCount(d: NamedRule): nat {
    if d.always then 1 else |d.windows|
  }

  lemma {:induction false} TrimEndKeeps(s: string, k: nat)
    requires k < |s| && !IsSpace(s[k])
    ensures k < |TrimEnd(s)| <= |s| && TrimEnd(s) == s[..|TrimEnd(s)|]
  {
    if IsSpace(s[|s| - 1]) {
      var t := s[..|s| - 1];
      TrimEndKeeps(t, k);
      assert t[..|TrimEnd(t)|] == s[..|TrimEnd(t)|];
    }
  }

  lemma {:induction false} TrimStartsPlain(s: string)
    ensures Trim(s) != "" ==> !IsSpace(Trim(s)[0])
    decreases |s|
  {
    if s != "" && IsSpace(s[0]) {
      TrimStartsPlain(s[1..]);
    } else if s != "" && IsSpace(s[|s| - 1]) {
      TrimStartsPlain(s[..|s| - 1]);
    }
  }

  lemma ClipKeepsStart(start: string, rest: string)
    requires |start| < 99 && rest != "" && !IsSpace(rest[0])
    ensures start <= Clip(start + rest) && |Clip(start + rest)| <= MAX_POLICY_NAME
  {
    var name := start + rest;
    if |name| > MAX_POLICY_NAME {
      var cut := name[..MAX_POLICY_NAME - 1];
      assert cut[|start|] == rest[0];
      TrimEndKeeps(cut, |start|);
      var clipped := TrimEnd(cut) + "…";
      assert clipped[..|start|] == cut[..|start|] == start;
    }
  }

  lemma BaseStartsPlain(d: NamedRule)
    ensures Base(d) != "" && !IsSpace(Base(d)[0])
  {
    TrimStartsPlain(d.name);
  }

  lemma NameStartsAndFits(d: NamedRule, index: nat)
    requires d.always || index < |d.windows|
    ensures PREFIX <= PolicyName(d, index) && |PolicyName(d, index)| <= MAX_POLICY_NAME
  {
    BaseStartsPlain(d);
    ClipKeepsStart(PREFIX, if d.always || |d.windows| <= 1 then Base(d) else Base(d) + " – " + Label(d.windows[index], index));
  }

  /** One name for an always-on rule, one for each window of a scheduled one. */
  function RulePolicyNames(d: NamedRule): (names: seq<string>)
    ensures |names| == PolicyCount(d)
  {
    NamesTo(d, PolicyCount(d))
  }

  function NamesTo(d: NamedRule, n: nat): (names: seq<string>)
    requires n <= PolicyCount(d)
    ensures |names| == n
  {
    if n == 0 then [] else NamesTo(d, n - 1) + [PolicyName(d, n - 1)]
  }

  lemma {:induction false} NamesAre(d: NamedRule, n: nat)
    requires n <= PolicyCount(d)
    ensures forall k :: 0 <= k < n ==> NamesTo(d, n)[k] == PolicyName(d, k)
  {
    if n > 0 { NamesAre(d, n - 1); }
  }

  /** Every policy's name starts with FamilyFi's prefix, so administrators can tell them apart, and fits UniFi's
      limit, whatever the household typed. */
  lemma NamesStartAndFit(d: NamedRule)
    ensures forall name :: name in RulePolicyNames(d) ==> PREFIX <= name && |name| <= MAX_POLICY_NAME
  {
    NamesAre(d, PolicyCount(d));
    forall k | 0 <= k < PolicyCount(d) ensures PREFIX <= PolicyName(d, k) && |PolicyName(d, k)| <= MAX_POLICY_NAME {
      NameStartsAndFits(d, k);
    }
  }

  // What a name says.

  function NumberOf(s: string): nat {
    if s == "" || s[|s| - 1] < '0' then 0 else NumberOf(s[..|s| - 1]) * 10 + (s[|s| - 1] as int - '0' as int)
  }

  /** The digits of `n`, with none to spare in front. */
  predicate IsNumeral(digits: string, n: nat) {
    && digits != "" && (forall k :: 0 <= k < |digits| ==> '0' <= digits[k] <= '9')
    && (|digits| > 1 ==> digits[0] != '0') && NumberOf(digits) == n
  }

  predicate IsUpperOf(c: char, u: char) {
    if 'a' <= c <= 'z' then 'A' <= u <= 'Z' && u as int - 'A' as int == c as int - 'a' as int else u == c
  }

  /** The rule's own part: the end of its id in capitals when its name is generated, else its trimmed name, and
      a fixed text for a name of spaces alone. */
  ghost predicate SaysRule(d: NamedRule, base: string) {
    if d.useGeneratedName then
      exists tail: string ::
        && tail == d.id[if |d.id| < 4 then 0 else |d.id| - 4..]
        && |base| == 5 + |tail| && base[..5] == "Rule "
        && forall k :: 0 <= k < |tail| ==> IsUpperOf(tail[k], base[5 + k])
    else if Blank(d.name) then base == "Untitled rule"
    else base != "" && Trims(d.name, base)
  }

  /** The window's part: its own trimmed name, else its place counted from one. */
  ghost predicate SaysWindow(name: string, index: nat, window: string) {
    if Blank(name) then exists digits :: IsNumeral(digits, index + 1) && window == "Window " + digits
    else window != "" && Trims(name, window)
  }

  /** The text itself where UniFi's limit lets it; else its first 99 characters, less any spaces that end them,
      and an ellipsis. */
  predicate Fits(text: string, name: string) {
    if |text| <= 100 then name == text
    else
      && 0 < |name| <= 100 && name[|name| - 1] == '…' && name[..|name| - 1] <= text
      && (forall k :: |name| - 1 <= k < 99 ==> IsSpace(text[k]))
      && (|name| > 1 ==> !IsSpace(name[|name| - 2]))
  }

  /** A rule with one policy is named by the rule, and one with several by the rule and the window. */
  ghost predicate SaysText(d: NamedRule, index: nat, text: string)
    requires d.always || index < |d.windows|
  {
    exists base :: SaysRule(d, base) && SaysAfter(d, index, base, text)
  }

  ghost predicate SaysAfter(d: NamedRule, index: nat, base: string, text: string)
    requires d.always || index < |d.windows|
  {
    if d.always || |d.windows| == 1 then text == "FamilyFi " + base
    else exists window :: SaysWindow(d.windows[index], index, window) && text == "FamilyFi " + base + " – " + window
  }

  lemma {:induction false} DecimalReads(n: nat)
    ensures IsNumeral(Decimal(n), n) && (n > 0 ==> Decimal(n)[0] != '0')
  {
    if n >= 10 {
      DecimalReads(n / 10);
      assert Decimal(n)[..|Decimal(n)| - 1] == Decimal(n / 10);
    } else {
      assert Decimal(n)[..0] == "";
    }
  }

  lemma {:induction false} UpperCaseAt(s: string)
    ensures |UpperCase(s)| == |s| && forall k :: 0 <= k < |s| ==> IsUpperOf(s[k], UpperCase(s)[k])
  {
    if s != "" { UpperCaseAt(s[1..]); }
  }

  lemma {:induction false} TrimEndIs(s: string)
    ensures TrimEnd(s) <= s && (TrimEnd(s) != "" ==> !IsSpace(TrimEnd(s)[|TrimEnd(s)| - 1]))
    ensures forall k :: |TrimEnd(s)| <= k < |s| ==> IsSpace(s[k])
  {
    if s != "" && IsSpace(s[|s| - 1]) { TrimEndIs(s[..|s| - 1]); }
  }

  lemma ClipFits(text: string)
    ensures Fits(text, Clip(text))
  {
    if |text| > MAX_POLICY_NAME { TrimEndIs(text[..MAX_POLICY_NAME - 1]); }
  }

  lemma BaseSays(d: NamedRule)
    ensures SaysRule(d, Base(d))
  {
    TrimTrims(d.name);
    var tail := d.id[if |d.id| < 4 then 0 else |d.id| - 4..];
    UpperCaseAt(tail);
    assert |d.id| <= 4 ==> tail == d.id;
  }

  lemma LabelSays(name: string, index: nat)
    ensures SaysWindow(name, index, Label(name, index))
  {
    TrimTrims(name);
    DecimalReads(index + 1);
  }

  lemma NameSays(d: NamedRule, k: nat, base: string)
    requires (d.always || k < |d.windows|) && base == Base(d)
    ensures exists text :: SaysAfter(d, k, base, text) && Fits(text, PolicyName(d, k))
  {
    if d.always || |d.windows| == 1 {
      ClipFits(PREFIX + base);
      assert SaysAfter(d, k, base, PREFIX + base);
    } else {
      var window := Label(d.windows[k], k);
      LabelSays(d.windows[k], k);
      var text := PREFIX + (base + " – " + window);
      assert text == "FamilyFi " + base + " – " + window;
      assert SaysAfter(d, k, base, text);
      ClipFits(text);
    }
  }

  /** Each policy's name says the rule it is for and, when the rule has several, the window, in their order, and
      is cut only where UniFi's limit makes it. */
  lemma NamesSay(d: NamedRule, k: nat)
    requires k < (if d.always then 1 else |d.windows|)
    ensures |RulePolicyNames(d)| == (if d.always then 1 else |d.windows|)
    ensures exists text :: SaysText(d, k, text) && Fits(text, RulePolicyNames(d)[k])
  {
    var base := Base(d);
    NamesAre(d, PolicyCount(d));
    BaseSays(d);
    NameSays(d, k, base);
    var text :| SaysAfter(d, k, base, text) && Fits(text, PolicyName(d, k));
    assert SaysText(d, k, text);
  }
}

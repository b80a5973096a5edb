/** Strings as JavaScript compares, splits, joins and trims them: by characters, with the white space
    that `trim` takes away, and with the facts about them that parsing versions and comparing lists
    rest on. */
module Strings {
  /** JavaScript's `<` on strings: by code units, a prefix before what it begins. */
  predicate Less(a: string, b: string) {
    b != "" && (a == "" || a[0] < b[0] || (a[0] == b[0] && Less(a[1..], b[1..])))
  }

  lemma {:induction false} LessTotal(a: string, b: string)
    ensures !(Less(a, b) && Less(b, a)) && !Less(a, a)
    ensures a == b || Less(a, b) || Less(b, a)
  {
    if a != "" && b != "" {
      LessTotal(a[1..], b[1..]);
      LessTotal(a[1..], a[1..]);
      assert a == [a[0]] + a[1..] && b == [b[0]] + b[1..];
    } else if a != "" {
      LessTotal(a[1..], a[1..]);
    }
  }

  lemma {:induction false} LessTransitive(a: string, b: string, c: string)
    requires Less(a, b) && Less(b, c)
    ensures Less(a, c)
  {
    if a != "" && a[0] == b[0] && b[0] == c[0] { LessTransitive(a[1..], b[1..], c[1..]); }
  }

  /** ASCII letters alone; the texts it is used on hold no others. */
  function Upper(c: char): char {
    if 'a' <= c <= 'z' then (c as int - 32) as char else c
  }

  function UpperCase(s: string): string {
    if s == "" then "" else [Upper(s[0])] + UpperCase(s[1..])
  }

  function Join(parts: seq<string>, sep: char): string {
    if parts == [] then "" else if |parts| == 1 then parts[0] else parts[0] + [sep] + Join(parts[1..], sep)
  }

  /** `split` by one character. */
  function Split(s: string, sep: char): (r: seq<string>)
    ensures |r| >= 1
  {
    if s == "" then [""]
    else
      var rest := Split(s[1..], sep);
      if s[0] == sep then [""] + rest else [[s[0]] + rest[0]] + rest[1..]
  }

  predicate Plain(s: string, c: char) {
    forall k :: 0 <= k < |s| ==> s[k] != c
  }

  lemma {:induction false} SplitPlain(s: string, sep: char)
    requires Plain(s, sep)
    ensures Split(s, sep) == [s]
  {
    if s != "" { SplitPlain(s[1..], sep); assert s == [s[0]] + s[1..]; }
  }

  lemma {:induction false} SplitAt(s: string, rest: string, sep: char)
    requires Plain(s, sep)
    ensures Split(s + [sep] + rest, sep) == [s] + Split(rest, sep)
  {
    var all := s + [sep] + rest;
    if s == "" {
      assert all[0] == sep && all[1..] == rest;
    } else {
      assert all[0] == s[0] && all[1..] == s[1..] + [sep] + rest;
      SplitAt(s[1..], rest, sep);
      assert s == [s[0]] + s[1..];
    }
  }

  lemma {:induction false} SplitJoin(parts: seq<string>, sep: char)
    requires parts != [] && forall k :: 0 <= k < |parts| ==> Plain(parts[k], sep)
    ensures Split(Join(parts, sep), sep) == parts
  {
    if |parts| == 1 {
      SplitPlain(parts[0], sep);
    } else {
      SplitJoin(parts[1..], sep);
      SplitAt(parts[0], Join(parts[1..], sep), sep);
    }
  }

  lemma {:induction false} JoinSplit(s: string, sep: char)
    ensures Join(Split(s, sep), sep) == s
  {
    if s != "" {
      JoinSplit(s[1..], sep);
      var rest := Split(s[1..], sep);
      assert s == [s[0]] + s[1..];
      if s[0] != sep && |rest| > 1 {
        assert ([[s[0]] + rest[0]] + rest[1..])[1..] == rest[1..];
      } else if s[0] == sep {
        assert ([""] + rest)[1..] == rest;
      }
    }
  }

  lemma {:induction false} JoinPlain(parts: seq<string>, sep: char, c: char)
    requires c != sep && forall k :: 0 <= k < |parts| ==> Plain(parts[k], c)
    ensures Plain(Join(parts, sep), c)
  {
    if |parts| > 1 { JoinPlain(parts[1..], sep, c); }
  }

  predicate IsSpace(c: char) {
    || c == ' ' || '\t' <= c <= '\r' || '\U{2000}' <= c <= '\U{200A}' || c == '\U{2028}' || c == '\U{2029}'
    || c == '\U{00A0}' || c == '\U{1680}' || c == '\U{202F}' || c == '\U{205F}' || c == '\U{3000}' || c == '\U{FEFF}'
  }

  function Trim(s: string): string
    decreases |s|
  {
    if s != "" && IsSpace(s[0]) then Trim(s[1..])
    else if s != "" && IsSpace(s[|s| - 1]) then Trim(s[..|s| - 1])
    else s
  }

  predicate Blank(s: string) {
    forall k :: 0 <= k < |s| ==> IsSpace(s[k])
  }

  lemma {:induction false} TrimPeels(before: string, s: string, after: string)
    requires Blank(before) && Blank(after) && s != "" && !IsSpace(s[0]) && !IsSpace(s[|s| - 1])
    ensures Trim(before + s + after) == s
    decreases |before| + |after|
  {
    var all := before + s + after;
    if before != "" {
      TrimPeels(before[1..], s, after);
      assert all[1..] == before[1..] + s + after;
    } else if after != "" {
      TrimPeels(before, s, after[..|after| - 1]);
      assert all[0] == s[0] && all[|all| - 1] == after[|after| - 1];
      assert all[..|all| - 1] == before + s + after[..|after| - 1];
    } else {
      assert all == s;
    }
  }

  /** `t` is `s` without the white space around it. */
  ghost predicate Trims(s: string, t: string) {
    exists before, after :: Peels(s, before, t, after)
  }

  ghost predicate Peels(s: string, before: string, t: string, after: string) {
    s == before + t + after && Blank(before) && Blank(after) && (t != "" ==> !IsSpace(t[0]) && !IsSpace(t[|t| - 1]))
  }

  lemma TrimsFront(s: string, t: string)
    requires s != "" && IsSpace(s[0]) && Trims(s[1..], t)
    ensures Trims(s, t) && (Blank(s) <==> Blank(s[1..]))
  {
    var before, after :| Peels(s[1..], before, t, after);
    assert s == [s[0]] + s[1..];
    assert Peels(s, [s[0]] + before, t, after);
  }

  lemma TrimsBack(s: string, t: string)
    requires s != "" && IsSpace(s[|s| - 1]) && Trims(s[..|s| - 1], t)
    ensures Trims(s, t) && (Blank(s) <==> Blank(s[..|s| - 1]))
  {
    var most, last := s[..|s| - 1], [s[|s| - 1]];
    var before, after :| Peels(most, before, t, after);
    assert s == most + last;
    assert Peels(s, before, t, after + last);
  }

  lemma {:induction false} TrimTrims(s: string)
    ensures Trims(s, Trim(s))
    ensures Trim(s) == "" <==> Blank(s)
    decreases |s|
  {
    if s != "" && IsSpace(s[0]) {
      TrimTrims(s[1..]);
      TrimsFront(s, Trim(s));
    } else if s != "" && IsSpace(s[|s| - 1]) {
      TrimTrims(s[..|s| - 1]);
      TrimsBack(s, Trim(s));
    } else {
      assert Peels(s, "", s, "");
    }
  }
}

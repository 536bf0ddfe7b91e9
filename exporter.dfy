/**
 * Export naming (scraper/exporter.py): the file-name sanitiser, the
 * `{safe}_{kind}_{timestamp}.csv` name of each export and the fixed CSV
 * header of each kind of record.
 */
module Exporter {
  import opened Wrappers
  import opened Strings

  // =====================================================================
  // `_sanitize_filename`
  // =====================================================================

  /** `\w` of the regular expressions, restricted to ASCII: letters, digits and '_'. */
  predicate IsWordChar(c: char) {
    ('a' <= c <= 'z') || ('A' <= c <= 'Z') || ('0' <= c <= '9') || c == '_'
  }

  /** The characters `[\w\-]` lets through. */
  predicate IsSafe(c: char) {
    IsWordChar(c) || c == '-'
  }

  predicate AllSafe(s: string) {
    forall i :: 0 <= i < |s| ==> IsSafe(s[i])
  }

  predicate NoDoubleUnderscore(s: string) {
    forall i :: 0 <= i < |s| - 1 ==> !(s[i] == '_' && s[i + 1] == '_')
  }

  /** `re.sub(r'[^\w\-]', '_', name)`: every other character becomes '_'. */
  function ReplaceUnsafe(name: string): (r: string)
    ensures |r| == |name| && AllSafe(r)
    ensures forall i :: 0 <= i < |name| && IsSafe(name[i]) ==> r[i] == name[i]
    ensures forall i :: 0 <= i < |name| && !IsSafe(name[i]) ==> r[i] == '_'
  {
    seq(|name|, i requires 0 <= i < |name| => if IsSafe(name[i]) then name[i] else '_')
  }

  /** `re.sub(r'_+', '_', s)`: each run of underscores becomes one. */
  function CollapseUnderscores(s: string): string
    decreases |s|
  {
    if |s| <= 1 then s
    else if s[0] == '_' && s[1] == '_' then CollapseUnderscores(s[1..])
    else [s[0]] + CollapseUnderscores(s[1..])
  }

  /** The collapse leaves no run of two underscores, keeps both ends and adds no character. */
  lemma {:induction false} CollapseUnderscoresProps(s: string)
    ensures var r := CollapseUnderscores(s);
      && NoDoubleUnderscore(r)
      && |r| <= |s| && (r == [] <==> s == [])
      && (s != [] ==> r[0] == s[0] && r[|r| - 1] == s[|s| - 1])
      && forall i :: 0 <= i < |r| ==> r[i] in s
    decreases |s|
  {
    if |s| > 1 {
      CollapseUnderscoresProps(s[1..]);
      var t := CollapseUnderscores(s[1..]);
      assert forall i :: 0 <= i < |t| ==> t[i] in s[1..] ==> t[i] in s;
    }
  }

  /** `k` underscores. */
  function Underscores(k: nat): string {
    seq(k, _ => '_')
  }

  /** A character other than '_' passes through the collapse. */
  lemma CollapseKeepsOther(c: char, t: string)
    requires c != '_'
    ensures CollapseUnderscores([c] + t) == [c] + CollapseUnderscores(t)
  {
    assert ([c] + t)[1..] == t;
  }

  /** A maximal run of `k >= 1` underscores becomes exactly one. */
  lemma {:induction false} CollapseRun(k: nat, t: string)
    requires k >= 1 && (t == [] || t[0] != '_')
    ensures CollapseUnderscores(Underscores(k) + t) == "_" + CollapseUnderscores(t)
  {
    var s := Underscores(k) + t;
    assert s[1..] == Underscores(k - 1) + t;
    if k > 1 {
      CollapseRun(k - 1, t);
    } else if t != [] {
      assert s[0] == '_' && s[1] == t[0];
    }
  }

  /** The two equations above and `CollapseUnderscores("") == ""` determine the collapse. */
  lemma {:induction false} CollapseDetermined(f: string -> string, s: string)
    requires f("") == ""
    requires forall c, t :: c != '_' ==> f([c] + t) == [c] + f(t)
    requires forall k: nat, t :: k >= 1 && (t == [] || t[0] != '_') ==> f(Underscores(k) + t) == "_" + f(t)
    ensures f(s) == CollapseUnderscores(s)
    decreases |s|
  {
    if s != [] {
      if s[0] != '_' {
        assert s == [s[0]] + s[1..];
        CollapseDetermined(f, s[1..]);
        CollapseKeepsOther(s[0], s[1..]);
      } else {
        var t := StripLeading(s);
        StripLeadingProps(s);
        var k := |s| - |t|;
        assert s[..k] == Underscores(k);
        assert s == Underscores(k) + t;
        CollapseDetermined(f, t);
        CollapseRun(k, t);
      }
    }
  }

  /** Drops the leading underscores. */
  function StripLeading(s: string): string {
    if s != [] && s[0] == '_' then StripLeading(s[1..]) else s
  }

  lemma StripLeadingProps(s: string)
    ensures var r := StripLeading(s);
      && |r| <= |s| && r == s[|s| - |r|..]
      && (r != [] ==> r[0] != '_')
      && forall i :: 0 <= i < |s| - |r| ==> s[i] == '_'
  {
    StripLeadingSuffix(s);
    StripLeadingHead(s);
    StripLeadingDropped(s);
  }

  lemma {:induction false} StripLeadingSuffix(s: string)
    ensures |StripLeading(s)| <= |s| && StripLeading(s) == s[|s| - |StripLeading(s)|..]
  {
    if s != [] && s[0] == '_' {
      StripLeadingSuffix(s[1..]);
      assert s[1..][|s| - 1 - |StripLeading(s[1..])|..] == s[|s| - |StripLeading(s[1..])|..];
    }
  }

  lemma {:induction false} StripLeadingHead(s: string)
    ensures StripLeading(s) != [] ==> StripLeading(s)[0] != '_'
  {
    if s != [] && s[0] == '_' {
      StripLeadingHead(s[1..]);
    }
  }

  lemma {:induction false} StripLeadingDropped(s: string)
    ensures forall i :: 0 <= i < |s| - |StripLeading(s)| ==> s[i] == '_'
  {
    if s != [] && s[0] == '_' {
      var t := s[1..];
      StripLeadingDropped(t);
      StripLeadingSuffix(t);
      forall i | 0 <= i < |s| - |StripLeading(s)| ensures s[i] == '_' {
        if i > 0 {
          assert s[i] == t[i - 1];
        }
      }
    }
  }

  /** Drops the trailing underscores. */
  function StripTrailing(s: string): string {
    if s != [] && s[|s| - 1] == '_' then StripTrailing(s[..|s| - 1]) else s
  }

  lemma StripTrailingProps(s: string)
    ensures var r := StripTrailing(s);
      && |r| <= |s| && r == s[..|r|]
      && (r != [] ==> r[|r| - 1] != '_')
      && forall i :: |r| <= i < |s| ==> s[i] == '_'
  {
    StripTrailingPrefix(s);
    StripTrailingLast(s);
    StripTrailingDropped(s);
  }

  lemma {:induction false} StripTrailingPrefix(s: string)
    ensures |StripTrailing(s)| <= |s| && StripTrailing(s) == s[..|StripTrailing(s)|]
  {
    if s != [] && s[|s| - 1] == '_' {
      StripTrailingPrefix(s[..|s| - 1]);
      assert s[..|s| - 1][..|StripTrailing(s[..|s| - 1])|] == s[..|StripTrailing(s[..|s| - 1])|];
    }
  }

  lemma {:induction false} StripTrailingLast(s: string)
    ensures StripTrailing(s) != [] ==> StripTrailing(s)[|StripTrailing(s)| - 1] != '_'
  {
    if s != [] && s[|s| - 1] == '_' {
      StripTrailingLast(s[..|s| - 1]);
    }
  }

  lemma {:induction false} StripTrailingDropped(s: string)
    ensures forall i :: |StripTrailing(s)| <= i < |s| ==> s[i] == '_'
  {
    if s != [] && s[|s| - 1] == '_' {
      var t := s[..|s| - 1];
      StripTrailingDropped(t);
      forall i | |StripTrailing(s)| <= i < |s| ensures s[i] == '_' {
        if i < |s| - 1 {
          assert s[i] == t[i];
        }
      }
    }
  }

  /** `s.strip('_')`. */
  function StripUnderscores(s: string): string {
    StripTrailing(StripLeading(s))
  }

  /** A name the three rewrites leave as it is. */
  predicate IsSafeName(s: string) {
    AllSafe(s) && NoDoubleUnderscore(s) && (s != [] ==> s[0] != '_' && s[|s| - 1] != '_')
  }

  /** `_sanitize_filename`. */
  function SanitizeFilename(name: string): (r: string)
    ensures IsSafeName(r)
  {
    var collapsed := CollapseUnderscores(ReplaceUnsafe(name));
    CollapseUnderscoresProps(ReplaceUnsafe(name));
    StrippedIsSafe(collapsed);
    StripUnderscores(collapsed)
  }

  lemma StrippedIsSafe(s: string)
    requires AllSafe(s) && NoDoubleUnderscore(s)
    ensures IsSafeName(StripUnderscores(s))
  {
    var l := StripLeading(s);
    StripLeadingProps(s);
    SliceKeepsSafe(s, |s| - |l|, |s|);
    var r := StripTrailing(l);
    StripTrailingProps(l);
    SliceKeepsSafe(l, 0, |r|);
    if r != [] {
      assert r[0] == l[0];
    }
  }

  /** A stretch of a safe name with no doubled underscores has neither unsafe characters nor doubled underscores. */
  lemma SliceKeepsSafe(s: string, a: nat, b: nat)
    requires a <= b <= |s| && AllSafe(s) && NoDoubleUnderscore(s)
    ensures AllSafe(s[a..b]) && NoDoubleUnderscore(s[a..b])
  {
    var t := s[a..b];
    forall i | 0 <= i < |t| ensures IsSafe(t[i]) {
      assert t[i] == s[a + i];
    }
    forall i | 0 <= i < |t| - 1 ensures !(t[i] == '_' && t[i + 1] == '_') {
      assert t[i] == s[a + i] && t[i + 1] == s[a + i + 1];
    }
  }

  lemma {:induction false} CollapseOfNoDouble(s: string)
    requires NoDoubleUnderscore(s)
    ensures CollapseUnderscores(s) == s
    decreases |s|
  {
    if |s| > 1 {
      CollapseOfNoDouble(s[1..]);
      assert [s[0]] + s[1..] == s;
    }
  }

  /** A name that is already safe comes back unchanged. */
  lemma SanitizeSafeName(name: string)
    requires IsSafeName(name)
    ensures SanitizeFilename(name) == name
  {
    assert ReplaceUnsafe(name) == name;
    CollapseOfNoDouble(name);
  }

  /** Sanitising twice is sanitising once. */
  lemma SanitizeIdempotent(name: string)
    ensures SanitizeFilename(SanitizeFilename(name)) == SanitizeFilename(name)
  {
    SanitizeSafeName(SanitizeFilename(name));
  }

  /** Letters, digits and hyphens only: the name is already a file name. */
  lemma SanitizePlainName(name: string)
    requires forall i :: 0 <= i < |name| ==> IsSafe(name[i]) && name[i] != '_'
    ensures SanitizeFilename(name) == name
  {
    SanitizeSafeName(name);
  }

  /** The characters other than '_', in order. */
  function NonUnderscores(s: string): string {
    if s == [] then [] else (if s[0] == '_' then [] else [s[0]]) + NonUnderscores(s[1..])
  }

  /** The letters, digits and hyphens of `name`, in order. */
  function KeptChars(name: string): string {
    if name == [] then [] else (if IsSafe(name[0]) && name[0] != '_' then [name[0]] else []) + KeptChars(name[1..])
  }

  lemma {:induction false} NonUnderscoresAppend(a: string, b: string)
    ensures NonUnderscores(a + b) == NonUnderscores(a) + NonUnderscores(b)
  {
    if a != [] {
      assert (a + b)[1..] == a[1..] + b;
      NonUnderscoresAppend(a[1..], b);
    } else {
      assert a + b == b;
    }
  }

  lemma {:induction false} NonUnderscoresOfUnderscores(s: string)
    requires forall i :: 0 <= i < |s| ==> s[i] == '_'
    ensures NonUnderscores(s) == []
  {
    if s != [] {
      NonUnderscoresOfUnderscores(s[1..]);
    }
  }

  lemma {:induction false} NonUnderscoresReplace(name: string)
    ensures NonUnderscores(ReplaceUnsafe(name)) == KeptChars(name)
  {
    if name != [] {
      assert ReplaceUnsafe(name)[1..] == ReplaceUnsafe(name[1..]);
      NonUnderscoresReplace(name[1..]);
    }
  }

  lemma {:induction false} NonUnderscoresCollapse(s: string)
    ensures NonUnderscores(CollapseUnderscores(s)) == NonUnderscores(s)
    decreases |s|
  {
    if |s| > 1 {
      NonUnderscoresCollapse(s[1..]);
    }
  }

  lemma {:induction false} NonUnderscoresStrip(s: string)
    ensures NonUnderscores(StripUnderscores(s)) == NonUnderscores(s)
  {
    var l := StripLeading(s);
    var r := StripTrailing(l);
    StripLeadingProps(s);
    StripTrailingProps(l);
    assert s == s[..|s| - |l|] + l;
    NonUnderscoresAppend(s[..|s| - |l|], l);
    NonUnderscoresOfUnderscores(s[..|s| - |l|]);
    assert l == r + l[|r|..];
    NonUnderscoresAppend(r, l[|r|..]);
    NonUnderscoresOfUnderscores(l[|r|..]);
  }

  /** Besides separators, the sanitised name holds exactly the letters, digits and hyphens of the input, in order. */
  lemma SanitizeKeepsContent(name: string)
    ensures NonUnderscores(SanitizeFilename(name)) == KeptChars(name)
  {
    var replaced := ReplaceUnsafe(name);
    NonUnderscoresReplace(name);
    NonUnderscoresCollapse(replaced);
    NonUnderscoresStrip(CollapseUnderscores(replaced));
  }

  lemma SanitizeExampleGroup(name: string)
    requires name == "My Group!"
    ensures SanitizeFilename(name) == "My_Group"
  {
    ReplaceExampleGroup(name);
    CollapseOfNoDouble("My_Group_");
    StripExampleGroup("My_Group_");
  }

  lemma ReplaceExampleGroup(name: string)
    requires name == "My Group!"
    ensures ReplaceUnsafe(name) == "My_Group_"
  {
    var r := ReplaceUnsafe(name);
    assert name[2] == ' ' && name[8] == '!';
    assert r[2] == '_' && r[8] == '_';
    assert r == "My_Group_";
  }

  lemma StripExampleGroup(s: string)
    requires s == "My_Group_"
    ensures StripUnderscores(s) == "My_Group"
  {
    assert StripLeading(s) == s;
    assert s[..8] == "My_Group";
    assert StripTrailing(s) == StripTrailing("My_Group");
    assert StripTrailing("My_Group") == "My_Group";
  }

  /** A run-free prefix that ends in a character other than '_' is left alone by the collapse. */
  lemma {:induction false} CollapseAfterPrefix(p: string, t: string)
    requires p != [] && p[|p| - 1] != '_' && NoDoubleUnderscore(p)
    ensures CollapseUnderscores(p + t) == p + CollapseUnderscores(t)
    decreases |p|
  {
    if |p| == 1 {
      if t != [] {
        assert (p + t)[1..] == t;
      }
    } else {
      assert (p + t)[1..] == p[1..] + t;
      CollapseAfterPrefix(p[1..], t);
      assert [p[0]] + (p[1..] + CollapseUnderscores(t)) == p + CollapseUnderscores(t);
    }
  }

  lemma SanitizeExampleSpaces(name: string)
    requires name == "  Spaces  "
    ensures SanitizeFilename(name) == "Spaces"
  {
    ReplaceExampleSpaces(name);
    CollapseExampleSpaces("__Spaces__");
    StripExampleSpaces("_Spaces_");
  }

  lemma ReplaceExampleSpaces(name: string)
    requires name == "  Spaces  "
    ensures ReplaceUnsafe(name) == "__Spaces__"
  {
    var r := ReplaceUnsafe(name);
    assert name[0] == ' ' && name[1] == ' ' && name[8] == ' ' && name[9] == ' ';
    assert r[0] == '_' && r[1] == '_' && r[8] == '_' && r[9] == '_';
    assert r == "__Spaces__";
  }

  lemma StripExampleSpaces(s: string)
    requires s == "_Spaces_"
    ensures StripUnderscores(s) == "Spaces"
  {
    assert s[1..] == "Spaces_";
    assert StripLeading(s) == StripLeading("Spaces_");
    assert StripLeading("Spaces_") == "Spaces_";
    assert "Spaces_"[..6] == "Spaces";
    assert StripTrailing("Spaces_") == StripTrailing("Spaces");
    assert StripTrailing("Spaces") == "Spaces";
  }

  lemma CollapseExampleSpaces(s: string)
    requires s == "__Spaces__"
    ensures CollapseUnderscores(s) == "_Spaces_"
  {
    var p := "_Spaces";
    assert s[0] == '_' && s[1] == '_';
    assert s[1..] == p + "__";
    assert NoDoubleUnderscore(p);
    CollapseAfterPrefix(p, "__");
    assert CollapseUnderscores("__") == CollapseUnderscores("_") == "_";
    assert p + "_" == "_Spaces_";
  }

  lemma SanitizeExampleDoubled(name: string)
    requires name == "Weird__Name"
    ensures SanitizeFilename(name) == "Weird_Name"
  {
    ReplaceExampleDoubled(name);
    CollapseExampleDoubled("Weird__Name");
    StripExampleDoubled("Weird_Name");
  }

  lemma ReplaceExampleDoubled(name: string)
    requires name == "Weird__Name"
    ensures ReplaceUnsafe(name) == "Weird__Name"
  {
    assert AllSafe(name);
  }

  lemma StripExampleDoubled(s: string)
    requires s == "Weird_Name"
    ensures StripUnderscores(s) == "Weird_Name"
  {
    assert StripLeading(s) == s;
    assert StripTrailing(s) == s;
  }

  lemma CollapseExampleDoubled(s: string)
    requires s == "Weird__Name"
    ensures CollapseUnderscores(s) == "Weird_Name"
  {
    var t := "__Name";
    CollapseDoubledPrefix(s, t);
    CollapseDoubledRest(t);
    assert "Weird" + "_Name" == "Weird_Name";
  }

  lemma CollapseDoubledPrefix(s: string, t: string)
    requires s == "Weird__Name" && t == "__Name"
    ensures CollapseUnderscores(s) == "Weird" + CollapseUnderscores(t)
  {
    assert s == "Weird" + t;
    assert NoDoubleUnderscore("Weird");
    CollapseAfterPrefix("Weird", t);
  }

  lemma CollapseDoubledRest(t: string)
    requires t == "__Name"
    ensures CollapseUnderscores(t) == "_Name"
  {
    assert t[0] == '_' && t[1] == '_' && t[1..] == "_Name";
    assert NoDoubleUnderscore("_Name");
    CollapseOfNoDouble("_Name");
  }

  // =====================================================================
  // The `%Y%m%d_%H%M%S` timestamp
  // =====================================================================

  /** The local time `datetime.now()` returns, as the fields `strftime` uses. */
  datatype DateTime = DateTime(year: nat, month: nat, day: nat, hour: nat, minute: nat, second: nat)

  predicate ValidDateTime(t: DateTime) {
    1000 <= t.year <= 9999 && 1 <= t.month <= 12 && 1 <= t.day <= 31 && t.hour < 24 && t.minute < 60 && t.second < 60
  }

  /** Two digits, zero-padded. */
  function TwoDigits(n: nat): string
    requires n < 100
  {
    [DigitChar(n / 10), DigitChar(n % 10)]
  }

  function FourDigits(n: nat): string
    requires n < 10000
  {
    TwoDigits(n / 100) + TwoDigits(n % 100)
  }

  /** `strftime('%Y%m%d_%H%M%S')`. */
  function FormatTimestamp(t: DateTime): (ts: string)
    requires ValidDateTime(t)
    ensures IsTimestamp(ts)
  {
    FourDigits(t.year) + TwoDigits(t.month) + TwoDigits(t.day) + "_" + TwoDigits(t.hour) + TwoDigits(t.minute) + TwoDigits(t.second)
  }

  /** Eight digits, '_', six digits. */
  predicate IsTimestamp(ts: string) {
    |ts| == 15 && ts[8] == '_' && forall i :: 0 <= i < 15 && i != 8 ==> IsDigit(ts[i])
  }

  function DigitAt(ts: string, i: nat): nat
    requires i < |ts| && IsDigit(ts[i])
  {
    ts[i] as int - '0' as int
  }

  /** The number written by the two digits at `i`. */
  function TwoDigitsAt(ts: string, i: nat): nat
    requires i + 1 < |ts| && IsDigit(ts[i]) && IsDigit(ts[i + 1])
  {
    DigitAt(ts, i) * 10 + DigitAt(ts, i + 1)
  }

  /** The number written by the four digits at `i`. */
  function FourDigitsAt(ts: string, i: nat): nat
    requires i + 3 < |ts| && IsDigit(ts[i]) && IsDigit(ts[i + 1]) && IsDigit(ts[i + 2]) && IsDigit(ts[i + 3])
  {
    TwoDigitsAt(ts, i) * 100 + TwoDigitsAt(ts, i + 2)
  }

  /** Reads the fields back out of a timestamp. */
  function ParseTimestamp(ts: string): Option<DateTime> {
    if !IsTimestamp(ts) then None
    else
      Some(DateTime(
        FourDigitsAt(ts, 0),
        TwoDigitsAt(ts, 4),
        TwoDigitsAt(ts, 6),
        TwoDigitsAt(ts, 9),
        TwoDigitsAt(ts, 11),
        TwoDigitsAt(ts, 13)))
  }

  lemma TwoDigitsValue(ts: string, i: nat, n: nat)
    requires n < 100 && i + 1 < |ts| && ts[i..i + 2] == TwoDigits(n)
    ensures IsDigit(ts[i]) && IsDigit(ts[i + 1]) && TwoDigitsAt(ts, i) == n
  {
    assert ts[i] == ts[i..i + 2][0] && ts[i + 1] == ts[i..i + 2][1];
  }

  lemma FourDigitsValue(ts: string, i: nat, n: nat)
    requires n < 10000 && i + 3 < |ts| && ts[i..i + 4] == FourDigits(n)
    ensures IsDigit(ts[i]) && IsDigit(ts[i + 1]) && IsDigit(ts[i + 2]) && IsDigit(ts[i + 3])
    ensures FourDigitsAt(ts, i) == n
  {
    assert ts[i..i + 2] == ts[i..i + 4][..2] == TwoDigits(n / 100);
    assert ts[i + 2..i + 4] == ts[i..i + 4][2..] == TwoDigits(n % 100);
    TwoDigitsValue(ts, i, n / 100);
    TwoDigitsValue(ts, i + 2, n % 100);
  }

  /** The timestamp in a file name determines the moment it was taken (to the second). */
  lemma TimestampRoundTrip(t: DateTime)
    requires ValidDateTime(t)
    ensures ParseTimestamp(FormatTimestamp(t)) == Some(t)
  {
    var ts := FormatTimestamp(t);
    var y, mo, d := FourDigits(t.year), TwoDigits(t.month), TwoDigits(t.day);
    var h, mi, se := TwoDigits(t.hour), TwoDigits(t.minute), TwoDigits(t.second);
    assert ts == y + mo + d + "_" + h + mi + se;
    assert ts[0..4] == y && ts[4..6] == mo && ts[6..8] == d;
    assert ts[9..11] == h && ts[11..13] == mi && ts[13..15] == se;
    FourDigitsValue(ts, 0, t.year);
    TwoDigitsValue(ts, 4, t.month);
    TwoDigitsValue(ts, 6, t.day);
    TwoDigitsValue(ts, 9, t.hour);
    TwoDigitsValue(ts, 11, t.minute);
    TwoDigitsValue(ts, 13, t.second);
  }

  /** 2 January 2024, 03:04:05 is written `20240102_030405`. */
  lemma TimestampExample(t: DateTime)
    requires t == DateTime(2024, 1, 2, 3, 4, 5)
    ensures FormatTimestamp(t) == "20240102_030405"
  {
    assert FourDigits(2024) == "20" + "24";
    assert TwoDigits(1) == "01" && TwoDigits(2) == "02" && TwoDigits(3) == "03";
    assert TwoDigits(4) == "04" && TwoDigits(5) == "05";
  }

  // =====================================================================
  // File names and headers
  // =====================================================================

  datatype ExportKind = MembersExport | MessagesExport | CombinedExport

  function KindName(kind: ExportKind): string {
    match kind
    case MembersExport => "members"
    case MessagesExport => "messages"
    case CombinedExport => "combined"
  }

  /** `f"{safe_name}_{kind}_{timestamp}.csv"`. */
  function ExportFilename(groupName: string, kind: ExportKind, timestamp: string): string {
    SanitizeFilename(groupName) + "_" + KindName(kind) + "_" + timestamp + ".csv"
  }

  datatype ExportName = ExportName(safeName: string, kind: ExportKind, timestamp: string)

  predicate EndsWith(s: string, suffix: string) {
    |suffix| <= |s| && s[|s| - |suffix|..] == suffix
  }

  /** Splits an export file name into its parts, reading from the end. */
  function ParseExportFilename(f: string): Option<ExportName> {
    if |f| < 20 || !EndsWith(f, ".csv") || f[|f| - 20] != '_' || !IsTimestamp(f[|f| - 19..|f| - 4]) then None
    else
      match SplitKind(f[..|f| - 20])
      case Some((safe, kind)) => Some(ExportName(safe, kind, f[|f| - 19..|f| - 4]))
      case None => None
  }

  /** Splits `{safe}_{kind}` at the kind name it ends with. */
  function SplitKind(head: string): Option<(string, ExportKind)> {
    if EndsWith(head, "_members") then Some((head[..|head| - 8], MembersExport))
    else if EndsWith(head, "_messages") then Some((head[..|head| - 9], MessagesExport))
    else if EndsWith(head, "_combined") then Some((head[..|head| - 9], CombinedExport))
    else None
  }

  lemma SuffixOfAppend(a: string, b: string, k: nat)
    requires k <= |b|
    ensures (a + b)[|a + b| - k..] == b[|b| - k..]
    ensures (a + b)[..|a|] == a
  {
  }

  lemma SplitKindOf(safe: string, kind: ExportKind)
    ensures SplitKind(safe + "_" + KindName(kind)) == Some((safe, kind))
  {
    var suffix := "_" + KindName(kind);
    assert safe + "_" + KindName(kind) == safe + suffix;
    match kind {
      case MembersExport => SplitMembers(safe, suffix);
      case MessagesExport => SplitMessages(safe, suffix);
      case CombinedExport => SplitCombined(safe, suffix);
    }
  }

  lemma SplitMembers(safe: string, suffix: string)
    requires suffix == "_members"
    ensures SplitKind(safe + suffix) == Some((safe, MembersExport))
  {
    SuffixOfAppend(safe, suffix, 8);
  }

  lemma SplitMessages(safe: string, suffix: string)
    requires suffix == "_messages"
    ensures SplitKind(safe + suffix) == Some((safe, MessagesExport))
  {
    var head := safe + suffix;
    SuffixOfAppend(safe, suffix, 8);
    assert head[|head| - 8..][0] == 'm';
    SuffixOfAppend(safe, suffix, 9);
  }

  lemma SplitCombined(safe: string, suffix: string)
    requires suffix == "_combined"
    ensures SplitKind(safe + suffix) == Some((safe, CombinedExport))
  {
    var head := safe + suffix;
    SuffixOfAppend(safe, suffix, 8);
    assert head[|head| - 8..][0] == 'c';
    SuffixOfAppend(safe, suffix, 9);
    assert head[|head| - 9..][1] == 'c';
  }

  /** The file name determines the sanitised group name, the kind and the timestamp. */
  lemma ExportFilenameRoundTrip(groupName: string, kind: ExportKind, timestamp: string)
    requires IsTimestamp(timestamp)
    ensures ParseExportFilename(ExportFilename(groupName, kind, timestamp)) == Some(ExportName(SanitizeFilename(groupName), kind, timestamp))
  {
    ParseBuiltName(SanitizeFilename(groupName), kind, timestamp);
  }

  lemma ParseBuiltName(safe: string, kind: ExportKind, timestamp: string)
    requires IsTimestamp(timestamp)
    ensures ParseExportFilename(safe + "_" + KindName(kind) + "_" + timestamp + ".csv") == Some(ExportName(safe, kind, timestamp))
  {
    var head := safe + "_" + KindName(kind);
    assert safe + "_" + KindName(kind) + "_" + timestamp + ".csv" == head + "_" + timestamp + ".csv";
    TailFields(head, timestamp);
    SplitKindOf(safe, kind);
  }

  /** Where the parser looks, the name built from `head` and a 15-character timestamp has the separator, the timestamp and the extension. */
  lemma TailFields(head: string, timestamp: string)
    requires |timestamp| == 15
    ensures var f := head + "_" + timestamp + ".csv";
      && |f| >= 20 && EndsWith(f, ".csv") && f[|f| - 20] == '_'
      && f[|f| - 19..|f| - 4] == timestamp && f[..|f| - 20] == head
  {
    var tail := "_" + timestamp + ".csv";
    var f := head + tail;
    assert head + "_" + timestamp + ".csv" == f;
    assert |tail| == 20;
    SuffixOfAppend(head, tail, 20);
    SuffixOfAppend(head, tail, 4);
    assert tail[16..] == ".csv";
    assert f[|f| - 20] == tail[0];
    assert f[|f| - 19..|f| - 4] == tail[1..16] == timestamp;
  }

  /** The example file names of the three exports, as `export_members`, `export_messages` and `export_combined` build them. */
  lemma ExportFilenameExample(group: string, kind: ExportKind)
    requires group == "My Group!"
    ensures ExportFilename(group, kind, "20240102_030405") == "My_Group_" + KindName(kind) + "_20240102_030405.csv"
  {
    SanitizeExampleGroup(group);
    var safe := SanitizeFilename(group);
    var name := KindName(kind);
    assert safe + "_" + name + "_" + "20240102_030405" + ".csv" == "My_Group_" + name + "_20240102_030405.csv";
  }

  /** The header row of each export, in column order. */
  function Fieldnames(kind: ExportKind): seq<string> {
    match kind
    case MembersExport =>
      ["user_id", "username", "first_name", "last_name", "phone", "is_bot", "last_seen", "is_premium", "bio"]
    case MessagesExport =>
      ["sender_id", "sender_username", "sender_name", "message_id", "timestamp", "text", "reply_to_id", "forward_from",
       "has_media", "media_type"]
    case CombinedExport =>
      ["user_id", "username", "first_name", "last_name", "phone", "bio", "last_seen", "is_premium", "is_bot",
       "message_count", "first_message_at", "last_message_at", "recent_messages"]
  }

  /** Nine, ten and thirteen columns, each named once; the combined export carries every member column. */
  lemma FieldnamesShape()
    ensures |Fieldnames(MembersExport)| == 9 && |Fieldnames(MessagesExport)| == 10 && |Fieldnames(CombinedExport)| == 13
    ensures forall kind: ExportKind :: Distinct(Fieldnames(kind))
    ensures forall f :: f in Fieldnames(MembersExport) ==> f in Fieldnames(CombinedExport)
  {
    MembersColumnsDistinct(Fieldnames(MembersExport));
    MessagesColumnsDistinct(Fieldnames(MessagesExport));
    CombinedColumnsDistinct(Fieldnames(CombinedExport));
  }

  lemma MembersColumnsDistinct(header: seq<string>)
    requires header == Fieldnames(MembersExport)
    ensures Distinct(header)
  {
  }

  lemma MessagesColumnsDistinct(header: seq<string>)
    requires header == Fieldnames(MessagesExport)
    ensures Distinct(header)
  {
  }

  lemma CombinedColumnsDistinct(header: seq<string>)
    requires header == Fieldnames(CombinedExport)
    ensures Distinct(header)
  {
  }
}

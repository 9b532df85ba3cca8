/**
 * Teacher-code classification and validation, code counting, and the
 * duration label between two "HH:MM" times.
 */
module Utils {
  import opened Base
  import opened Text
  import opened Records

  // ---------------------------------------------------------------------------
  // Code shapes
  // ---------------------------------------------------------------------------

  /** The length of the longest prefix of upper-case ASCII letters. */
  function LetterRun(s: string): (n: nat)
    ensures n <= |s| && (forall i :: 0 <= i < n ==> IsUpper(s[i]))
    ensures n < |s| ==> !IsUpper(s[n])
  {
    if s != [] && IsUpper(s[0]) then 1 + LetterRun(s[1..]) else 0
  }

  /**
   * What the regular expression `^[A-Z]+[0-9]{lo,hi}$` accepts (`hi < 0`
   * meaning no upper bound): one or more capitals, then `lo` to `hi` digits,
   * and nothing else.
   */
  ghost predicate MatchesLettersDigits(s: string, lo: nat, hi: int)
  {
    exists k :: 1 <= k <= |s| && (forall i :: 0 <= i < k ==> IsUpper(s[i])) && AllDigits(s[k..])
                && lo <= |s| - k && (hi < 0 || |s| - k <= hi)
  }

  /** The same test computed by splitting at the end of the capitals. */
  predicate LettersDigits(s: string, lo: nat, hi: int)
  {
    var n := LetterRun(s);
    n >= 1 && AllDigits(s[n..]) && lo <= |s| - n && (hi < 0 || |s| - n <= hi)
  }

  /** A prefix of capitals followed by a non-capital (or the end) is the letter run. */
  lemma {:induction false} LetterRunAt(s: string, k: nat)
    requires k <= |s| && (forall i :: 0 <= i < k ==> IsUpper(s[i]))
    requires k < |s| ==> !IsUpper(s[k])
    ensures LetterRun(s) == k
  {
    if k > 0 {
      LetterRunAt(s[1..], k - 1);
    }
  }

  /** Capitals and digits do not overlap, so the split is forced and both tests agree. */
  lemma {:induction false} LettersDigitsIff(s: string, lo: nat, hi: int)
    ensures LettersDigits(s, lo, hi) <==> MatchesLettersDigits(s, lo, hi)
  {
    var n := LetterRun(s);
    if MatchesLettersDigits(s, lo, hi) {
      var k :| 1 <= k <= |s| && (forall i :: 0 <= i < k ==> IsUpper(s[i])) && AllDigits(s[k..])
               && lo <= |s| - k && (hi < 0 || |s| - k <= hi);
      if k < |s| {
        assert IsDigit(s[k..][0]);
      }
      LetterRunAt(s, k);
    }
    if LettersDigits(s, lo, hi) {
      assert 1 <= n <= |s| && (forall i :: 0 <= i < n ==> IsUpper(s[i]));
    }
  }

  /** `/^[XZ]/.test(s)`. */
  predicate StartsXZ(s: string)
  {
    s != [] && (s[0] == 'X' || s[0] == 'Z')
  }

  /** `checkIfTeacherCode`: "Z0", or capitals then digits not starting with X or Z. */
  predicate CheckIfTeacherCode(s: string)
  {
    if s == "Z0" then true
    else if StartsXZ(s) then false
    else LettersDigits(s, 0, -1)
  }

  /** `checkIfReservedCode`: a non-empty code starting with X or Z. */
  predicate CheckIfReservedCode(code: Option<string>)
  {
    code.Some? && code.value != "" && StartsXZ(code.value)
  }

  /**
   * The two classifications: "Z0" is the only code that is both a teacher code
   * and reserved; any other teacher code is unreserved, and a teacher code is
   * always capitals followed by digits.
   */
  lemma {:induction false} TeacherAndReserved(s: string)
    ensures CheckIfTeacherCode(s) && CheckIfReservedCode(Some(s)) <==> s == "Z0"
    ensures CheckIfTeacherCode(s) ==> MatchesLettersDigits(s, 0, -1)
  {
    LettersDigitsIff(s, 0, -1);
    if s == "Z0" {
      assert LetterRun(s) == 1;
      assert AllDigits(s[1..]);
    }
  }

  /** The test is case-sensitive: a lower-case letter anywhere rejects the code. */
  lemma {:induction false} LowerCaseNotTeacherCode(s: string, i: nat)
    requires i < |s| && IsLower(s[i])
    ensures !CheckIfTeacherCode(s)
  {
    var n := LetterRun(s);
    assert i >= n;
    assert !IsDigit(s[n..][i - n]);
  }

  // ---------------------------------------------------------------------------
  // Code counting and validation
  // ---------------------------------------------------------------------------

  /** A teacher's code as the editor compares it: trimmed. */
  function TrimmedCode(t: Teacher): string
  {
    Trim(t.code)
  }

  /** The multiset of trimmed, non-blank codes of the teachers. */
  function CodeBag(teachers: seq<Teacher>): (b: multiset<string>)
    ensures "" !in b
  {
    if teachers == [] then multiset{}
    else
      var c := TrimmedCode(teachers[|teachers| - 1]);
      CodeBag(teachers[..|teachers| - 1]) + (if c == "" then multiset{} else multiset{c})
  }

  /** The number of teachers whose code is not blank. */
  function NonBlankCount(teachers: seq<Teacher>): nat
  {
    if teachers == [] then 0
    else NonBlankCount(teachers[..|teachers| - 1]) + (if TrimmedCode(teachers[|teachers| - 1]) == "" then 0 else 1)
  }

  /** The counts add up to the number of teachers with a non-blank code. */
  lemma {:induction false} CodeBagSize(teachers: seq<Teacher>)
    ensures |CodeBag(teachers)| == NonBlankCount(teachers)
  {
    if teachers != [] {
      CodeBagSize(teachers[..|teachers| - 1]);
    }
  }

  /** A map from each element of a bag to its multiplicity, and nothing else. */
  ghost predicate CountsOf(counts: map<string, nat>, bag: multiset<string>)
  {
    (forall c :: c in counts <==> c in bag) && (forall c :: c in counts ==> counts[c] == bag[c])
  }

  /** Counting one more occurrence keeps the map in step with the bag. */
  lemma {:induction false} CountStep(counts: map<string, nat>, bag: multiset<string>, code: string)
    requires CountsOf(counts, bag)
    ensures CountsOf(counts[code := (if code in counts then counts[code] else 0) + 1], bag + multiset{code})
  {
  }

  /**
   * `getCodeCounts`: every non-blank trimmed code is counted; the counts are
   * the multiplicities of `CodeBag`, and only codes that occur are keys.
   */
  method GetCodeCounts(teachers: seq<Teacher>) returns (counts: map<string, nat>)
    ensures CountsOf(counts, CodeBag(teachers))
  {
    counts := map[];
    for i := 0 to |teachers|
      invariant CountsOf(counts, CodeBag(teachers[..i]))
    {
      assert teachers[..i + 1][..i] == teachers[..i];
      var code := TrimmedCode(teachers[i]);
      assert CodeBag(teachers[..i + 1]) == CodeBag(teachers[..i]) + (if code == "" then multiset{} else multiset{code});
      if code == "" {
        continue;
      }
      CountStep(counts, CodeBag(teachers[..i]), code);
      counts := counts[code := (if code in counts then counts[code] else 0) + 1];
    }
    assert teachers[..|teachers|] == teachers;
  }

  const CodeRequired: string := "Code is required"
  const CodeFormat: string := "Use format like A1, PK2, or MATH10"
  const CodeNotUnique: string := "Code must be unique"

  /**
   * `validateCode`: the first failing check's message, in this order: blank,
   * not capitals followed by one or two digits, held by more than one teacher;
   * `None` when the code passes all three.
   */
  function ValidateCode(code: string, teachers: seq<Teacher>): (r: Option<string>)
    ensures r == None <==> Trim(code) != "" && LettersDigits(Trim(code), 1, 2) && CodeBag(teachers)[Trim(code)] <= 1
  {
    var trimmed := Trim(code);
    if trimmed == "" then Some(CodeRequired)
    else if !LettersDigits(trimmed, 1, 2) then Some(CodeFormat)
    else if CodeBag(teachers)[trimmed] > 1 then Some(CodeNotUnique)
    else None
  }

  /**
   * A code that passes validation is a teacher code or a reserved code, and
   * both only for "Z0".
   */
  lemma {:induction false} ValidCodeClassified(code: string, teachers: seq<Teacher>)
    requires ValidateCode(code, teachers) == None
    ensures CheckIfTeacherCode(Trim(code)) || CheckIfReservedCode(Some(Trim(code)))
    ensures CheckIfTeacherCode(Trim(code)) && CheckIfReservedCode(Some(Trim(code))) <==> Trim(code) == "Z0"
  {
    TeacherAndReserved(Trim(code));
  }

  // ---------------------------------------------------------------------------
  // Durations
  // ---------------------------------------------------------------------------

  /** The first two `:`-separated fields of a time, as numbers; a missing field is `NaN` (`None`). */
  function HourMinute(t: string): (Option<int>, Option<int>)
  {
    var parts := Split(t, ':');
    (ToNumber(parts[0]), if |parts| > 1 then ToNumber(parts[1]) else None)
  }

  /** "<a>:<b>" has the fields `a` and `b`. */
  lemma {:induction false} HourMinuteOf(a: string, b: string)
    requires ':' !in a && ':' !in b
    ensures HourMinute(a + [':'] + b) == (ToNumber(a), ToNumber(b))
  {
    SplitAt(a, b, ':');
  }

  /** The minutes from `start` to `end`, `None` when a field is not a number. */
  function MinutesBetween(start: string, end: string): Option<int>
  {
    var (sh, sm) := HourMinute(start);
    var (eh, em) := HourMinute(end);
    if sh.Some? && sm.Some? && eh.Some? && em.Some? then
      Some(eh.value * 60 + em.value - (sh.value * 60 + sm.value))
    else None
  }

  /** `getDuration`: "(<h>h <m>m)" for a positive span, leaving out a zero part; "" otherwise. */
  method GetDuration(start: string, end: string) returns (r: string)
    ensures r == DurationLabel(MinutesBetween(start, end))
  {
    var minutes := MinutesBetween(start, end);
    if minutes.Some? && minutes.value <= 0 {
      return "";
    }
    // A NaN span fails every comparison below and leaves "()".
    var hours := minutes.Some? && minutes.value / 60 > 0;
    var rest := minutes.Some? && minutes.value % 60 > 0;
    // Each part is appended only when its condition holds.
    var hoursPart := if hours then NatToString(minutes.value / 60) + "h" else "";
    var gapPart := if hours && rest then " " else "";
    var restPart := if rest then NatToString(minutes.value % 60) + "m" else "";
    var result := "(" + hoursPart + gapPart + restPart + ")";
    LabelAssembled(minutes);
    if result == "()" {
      return "";
    }
    return result;
  }

  /**
   * The pieces `getDuration` appends make up the label: for a positive span
   * they never leave "()", and for a NaN span they always do.
   */
  lemma {:induction false} LabelAssembled(minutes: Option<int>)
    requires minutes.Some? ==> minutes.value > 0
    ensures var hours := minutes.Some? && minutes.value / 60 > 0;
      var rest := minutes.Some? && minutes.value % 60 > 0;
      var hoursPart := if hours then NatToString(minutes.value / 60) + "h" else "";
      var gapPart := if hours && rest then " " else "";
      var restPart := if rest then NatToString(minutes.value % 60) + "m" else "";
      var result := "(" + hoursPart + gapPart + restPart + ")";
      (if result == "()" then "" else result) == DurationLabel(minutes)
  {
    var hours := minutes.Some? && minutes.value / 60 > 0;
    var rest := minutes.Some? && minutes.value % 60 > 0;
    var hoursPart := if hours then NatToString(minutes.value / 60) + "h" else "";
    var gapPart := if hours && rest then " " else "";
    var restPart := if rest then NatToString(minutes.value % 60) + "m" else "";
    var result := "(" + hoursPart + gapPart + restPart + ")";
    if minutes.Some? {
      assert hours || rest;
      assert result == "(" + (hoursPart + gapPart + restPart) + ")";
      assert |hoursPart + gapPart + restPart| > 0;
      assert result != "()";
    } else {
      assert result == "()";
    }
  }

  /** The label for a number of minutes. */
  function DurationLabel(minutes: Option<int>): string
  {
    if minutes.None? || minutes.value <= 0 then ""
    else
      var h := minutes.value / 60;
      var m := minutes.value % 60;
      var hours := if h > 0 then NatToString(h) + "h" else "";
      var gap := if h > 0 && m > 0 then " " else "";
      var rest := if m > 0 then NatToString(m) + "m" else "";
      "(" + hours + gap + rest + ")"
  }

  /** Reads one "<digits><unit>" part of a label. */
  function ReadAmount(p: string, unit: char): Option<nat>
  {
    if |p| >= 2 && p[|p| - 1] == unit && AllDigits(p[..|p| - 1]) then Some(DigitsValue(p[..|p| - 1])) else None
  }

  /** Reads a label "(<h>h <m>m)", "(<h>h)" or "(<m>m)" back into minutes. */
  function ReadDuration(s: string): Option<int>
  {
    if |s| < 2 || s[0] != '(' || s[|s| - 1] != ')' then None
    else
      var inner := s[1..|s| - 1];
      var k := IndexOf(inner, ' ');
      if k < 0 then
        var h := ReadAmount(inner, 'h');
        var m := ReadAmount(inner, 'm');
        if h.Some? then Some(h.value * 60) else if m.Some? then Some(m.value) else None
      else
        var h := ReadAmount(inner[..k], 'h');
        var m := ReadAmount(inner[k + 1..], 'm');
        if h.Some? && m.Some? then Some(h.value * 60 + m.value) else None
  }

  lemma {:induction false} ReadAmountOf(n: nat, unit: char)
    ensures ReadAmount(NatToString(n) + [unit], unit) == Some(n)
  {
    var p := NatToString(n) + [unit];
    assert p[..|p| - 1] == NatToString(n);
    NatToStringRoundTrip(n);
  }

  /**
   * The label is "" exactly when the span is not positive or not a number,
   * is never "()", and reading it back gives the minutes.
   */
  lemma {:induction false} DurationLabelRoundTrip(minutes: Option<int>)
    ensures DurationLabel(minutes) == "" <==> minutes.None? || minutes.value <= 0
    ensures DurationLabel(minutes) != "()"
    ensures minutes.Some? && minutes.value > 0 ==> ReadDuration(DurationLabel(minutes)) == minutes
  {
    if minutes.Some? && minutes.value > 0 {
      var v := minutes.value;
      var h, m := v / 60, v % 60;
      if h > 0 && m > 0 {
        LabelBoth(v);
        ReadBoth(h, m);
      } else if h > 0 {
        LabelHours(v);
        ReadHours(h);
      } else {
        LabelMinutes(v);
        ReadMinutes(m);
      }
    }
  }

  lemma {:induction false} LabelBoth(v: int)
    requires v > 0 && v / 60 > 0 && v % 60 > 0
    ensures v == v / 60 * 60 + v % 60
    ensures DurationLabel(Some(v)) == "(" + NatToString(v / 60) + "h" + " " + NatToString(v % 60) + "m" + ")"
  {
  }

  lemma {:induction false} LabelHours(v: int)
    requires v > 0 && v / 60 > 0 && v % 60 == 0
    ensures v == v / 60 * 60
    ensures DurationLabel(Some(v)) == "(" + NatToString(v / 60) + "h" + ")"
  {
  }

  lemma {:induction false} LabelMinutes(v: int)
    requires v > 0 && v / 60 == 0
    ensures v == v % 60
    ensures DurationLabel(Some(v)) == "(" + NatToString(v % 60) + "m" + ")"
  {
  }

  lemma {:induction false} ReadBoth(h: nat, m: nat)
    ensures ReadDuration("(" + NatToString(h) + "h" + " " + NatToString(m) + "m" + ")") == Some(h * 60 + m)
  {
    var hs, ms := NatToString(h), NatToString(m);
    LabelParts(hs, ms);
    DigitsNoSpace(hs);
    ReadAmountOf(h, 'h');
    ReadAmountOf(m, 'm');
    ReadParts(hs + "h", ms + "m", h, m);
  }

  lemma {:induction false} LabelParts(a: string, b: string)
    ensures "(" + a + "h" + " " + b + "m" + ")" == "(" + (a + "h") + [' '] + (b + "m") + ")"
  {
  }

  lemma {:induction false} DigitsNoSpace(a: string)
    requires forall i :: 0 <= i < |a| ==> IsDigit(a[i])
    ensures ' ' !in a + "h"
  {
  }

  /** A label with a space is read as its hours part before the space and its minutes part after. */
  lemma {:induction false} ReadParts(hp: string, mp: string, h: nat, m: nat)
    requires ' ' !in hp && ReadAmount(hp, 'h') == Some(h) && ReadAmount(mp, 'm') == Some(m)
    ensures ReadDuration("(" + hp + [' '] + mp + ")") == Some(h * 60 + m)
  {
    var inner := hp + [' '] + mp;
    var shown := "(" + hp + [' '] + mp + ")";
    assert shown[1..|shown| - 1] == inner;
    IndexOfAfter(hp, ' ', mp);
    assert inner[..|hp|] == hp;
    assert inner[|hp| + 1..] == mp;
  }

  lemma {:induction false} ReadHours(h: nat)
    ensures ReadDuration("(" + NatToString(h) + "h" + ")") == Some(h * 60)
  {
    var hs := NatToString(h);
    var shown := "(" + hs + "h" + ")";
    var inner := shown[1..|shown| - 1];
    assert inner == hs + "h";
    assert ' ' !in inner;
    ReadAmountOf(h, 'h');
  }

  lemma {:induction false} ReadMinutes(m: nat)
    ensures ReadDuration("(" + NatToString(m) + "m" + ")") == Some(m)
  {
    var ms := NatToString(m);
    var shown := "(" + ms + "m" + ")";
    var inner := shown[1..|shown| - 1];
    assert inner == ms + "m";
    assert ' ' !in inner;
    ReadAmountOf(m, 'm');
    assert ReadAmount(inner, 'h') == None;
  }
}

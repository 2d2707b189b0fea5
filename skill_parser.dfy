/**
 * The line-level parser of run-test.py: the fixed name lists, `match_exact`,
 * `is_ignored`, `clean_skill_name`, `match_skill`, and the regular
 * expressions of `parse_skill_line` and `parse_type_name`, written out as
 * scanners that follow `re.search`: the leftmost start position wins, a lazy
 * group takes its shortest extent and a greedy group its longest.
 */
module SkillParser {
  import opened Wrappers
  import opened Text
  import opened Matching

  const SetNames: seq<string> := ["활력", "마력", "광분", "순수"]

  const TypeNames: seq<string> := ["성배", "양피지", "나침반", "종", "거울", "천칭"]

  const IgnoreWords: seq<string> := [
    "강화 단계", "강화단계", "장착 효과", "장착효과", "세트 효과", "세트효과",
    "성배", "양피지", "나침반", "거울", "천칭"]

  const Skills: seq<string> := [
    "암격쇄", "격파쇄", "백열격", "쾌유의 주문", "회전격",
    "타격쇄", "돌진 격파", "열파격", "파동격", "질풍 난무",
    "진동쇄", "충격 해제",
    "공격 준비", "충격 적중", "고취의 주문", "생명의 축복", "대지의 약속",
    "바람의 약속", "생존 의지", "보호진", "격노의 주문", "십자 방어"]

  /** A parsed skill entry, `{'name': ..., 'level': ...}`. */
  datatype Skill = Skill(name: string, level: string)

  // ------------------------------------------------------------ match_exact

  /** Overlap counted by `match_exact`'s second scan: only candidates of length two or more. */
  predicate LongOverlap(c: string, item: string) {
    |item| >= 2 && Overlaps(c, item)
  }

  /** Index of the first candidate that overlaps `c` and has length two or more. */
  function FirstLongOverlap(c: string, list: seq<string>): (r: Option<nat>)
    ensures r.Some? ==> r.value < |list| && LongOverlap(c, list[r.value])
    ensures r.Some? ==> forall k :: 0 <= k < r.value ==> !LongOverlap(c, list[k])
    ensures r.None? ==> forall k :: 0 <= k < |list| ==> !LongOverlap(c, list[k])
  {
    if |list| == 0 then None
    else if LongOverlap(c, list[0]) then Some(0)
    else match FirstLongOverlap(c, list[1..])
      case None => None
      case Some(k) => Some(k + 1)
  }

  /**
   * `match_exact(text, lst)`: drop every space, then the equal candidate,
   * else the first candidate in list order of length two or more that
   * contains the text or is contained in it.
   */
  function ExactMatch(text: string, list: seq<string>): (r: Option<string>)
    ensures r.Some? ==> r.value in list
    ensures RemoveSpaces(text) in list ==> r == Some(RemoveSpaces(text))
    ensures r.Some? && r.value != RemoveSpaces(text) ==> LongOverlap(RemoveSpaces(text), r.value)
    ensures r.None? <==> RemoveSpaces(text) !in list && forall s :: s in list ==> !LongOverlap(RemoveSpaces(text), s)
    ensures RemoveSpaces(text) !in list && r.Some? ==>
      exists k :: 0 <= k < |list| && list[k] == r.value && LongOverlap(RemoveSpaces(text), list[k])
        && forall j :: 0 <= j < k ==> !LongOverlap(RemoveSpaces(text), list[j])
  {
    var c := RemoveSpaces(text);
    if c in list then Some(c)
    else match FirstLongOverlap(c, list)
      case Some(k) => Some(list[k])
      case None =>
        assert forall s :: s in list ==> !LongOverlap(c, s) by {
          forall s | s in list ensures !LongOverlap(c, s) {
            var k :| 0 <= k < |list| && list[k] == s;
          }
        }
        None
  }

  // ------------------------------------------------------- is_ignored, clean

  /** Some ignore word from index `k` on occurs in `c` (the `any(...)` scan). */
  predicate IgnoredFrom(c: string, k: nat)
    decreases |IgnoreWords| - k
  {
    k < |IgnoreWords| && (Contains(c, IgnoreWords[k]) || IgnoredFrom(c, k + 1))
  }

  /** `is_ignored(text)`: collapse whitespace runs, trim, then look for any ignore word. */
  predicate IsIgnored(text: string) {
    IgnoredFrom(Squish(text), 0)
  }

  /** The scan answers exactly whether some ignore word occurs in the collapsed text. */
  lemma {:induction false} IgnoredFromExists(c: string, k: nat)
    ensures IgnoredFrom(c, k) <==> exists j :: k <= j < |IgnoreWords| && Contains(c, IgnoreWords[j])
    decreases |IgnoreWords| - k
  {
    if k < |IgnoreWords| {
      IgnoredFromExists(c, k + 1);
    }
  }

  /** `re.sub(r'[^가-힣\s]', '', s)`: keeps Hangul syllables and whitespace. */
  function KeepNameChars(s: string): (r: string)
    ensures forall i :: 0 <= i < |r| ==> IsHangul(r[i]) || IsSpace(r[i])
  {
    if s == [] then []
    else (if IsHangul(s[0]) || IsSpace(s[0]) then [s[0]] else []) + KeepNameChars(s[1..])
  }

  /** The Hangul syllables of `s`, in order. */
  function HangulOf(s: string): (r: string)
    ensures forall i :: 0 <= i < |r| ==> IsHangul(r[i])
  {
    if s == [] then [] else (if IsHangul(s[0]) then [s[0]] else []) + HangulOf(s[1..])
  }

  lemma {:induction false} NonSpaceKeepNameChars(s: string)
    ensures NonSpace(KeepNameChars(s)) == HangulOf(s)
  {
    if s != [] {
      var head := if IsHangul(s[0]) || IsSpace(s[0]) then [s[0]] else [];
      NonSpaceAppend(head, KeepNameChars(s[1..]));
      NonSpaceKeepNameChars(s[1..]);
      assert NonSpace(head) == (if IsHangul(s[0]) then [s[0]] else []) by {
        if head != [] {
          assert NonSpace(head) == (if IsSpace(s[0]) then [] else [s[0]]) + NonSpace([]);
        }
      }
    }
  }

  /** Every non-space character of `s` survives in `NonSpace(s)`. */
  lemma {:induction false} NonSpaceKeeps(s: string, i: nat)
    requires i < |s| && !IsSpace(s[i])
    ensures s[i] in NonSpace(s)
  {
    if i > 0 {
      NonSpaceKeeps(s[1..], i - 1);
    }
  }

  /** A collapsed string whose non-space characters are all Hangul holds only Hangul and `' '`. */
  lemma CleanChars(r: string)
    requires Squished(r)
    requires forall i :: 0 <= i < |NonSpace(r)| ==> IsHangul(NonSpace(r)[i])
    ensures forall i :: 0 <= i < |r| ==> IsHangul(r[i]) || r[i] == ' '
  {
    forall i | 0 <= i < |r| && !IsSpace(r[i])
      ensures IsHangul(r[i])
    {
      NonSpaceKeeps(r, i);
    }
  }

  /**
   * `clean_skill_name(text)`: only Hangul syllables and single inner spaces,
   * nothing at either end, and exactly the Hangul syllables of the input in
   * their order.
   */
  function CleanSkillName(text: string): (r: string)
    ensures forall i :: 0 <= i < |r| ==> IsHangul(r[i]) || r[i] == ' '
    ensures Squished(r)
    ensures NonSpace(r) == HangulOf(text)
  {
    var r := Squish(KeepNameChars(text));
    NonSpaceKeepNameChars(text);
    CleanChars(r);
    r
  }

  // ------------------------------------------------------------ scanners

  /** `[가-힣a-zA-Z]`: the first character of a skill name. */
  predicate IsNameStart(c: char) {
    IsHangul(c) || IsAsciiLetter(c)
  }

  /** `[가-힣a-zA-Z0-9\s]`: the further characters of a skill name. */
  predicate IsNameChar(c: char) {
    IsNameStart(c) || IsDigit(c) || IsSpace(c)
  }

  predicate SpacesBetween(s: string, i: nat, j: nat) {
    j <= |s| && forall k :: i <= k < j ==> SpaceAt(s, k)
  }

  /** `s[k]` exists and is whitespace. */
  predicate SpaceAt(s: string, k: nat) {
    k < |s| && IsSpace(s[k])
  }

  predicate DigitsBetween(s: string, i: nat, j: nat) {
    j <= |s| && forall k :: i <= k < j ==> IsDigit(s[k])
  }

  /** End of the whitespace run that starts at `p` (a greedy `\s*`). */
  function SkipSpaces(s: string, p: nat): (q: nat)
    requires p <= |s|
    ensures p <= q && SpacesBetween(s, p, q) && (q < |s| ==> !IsSpace(s[q]))
    decreases |s| - p
  {
    if p < |s| && IsSpace(s[p]) then SkipSpaces(s, p + 1) else p
  }

  /** End of the digit run that starts at `p` (a greedy `\d*`). */
  function DigitsEnd(s: string, p: nat): (q: nat)
    requires p <= |s|
    ensures p <= q && DigitsBetween(s, p, q) && (q < |s| ==> !IsDigit(s[q]))
    decreases |s| - p
  {
    if p < |s| && IsDigit(s[p]) then DigitsEnd(s, p + 1) else p
  }

  /** A whitespace run from `p` that stops at the non-space `s[m]` ends exactly at `m`. */
  lemma {:induction false} SkipSpacesStops(s: string, p: nat, m: nat)
    requires p <= m < |s| && SpacesBetween(s, p, m) && !IsSpace(s[m])
    ensures SkipSpaces(s, p) == m
    decreases m - p
  {
    if p < m {
      assert SpaceAt(s, p);
      SkipSpacesStops(s, p + 1, m);
    }
  }

  /** `(?:Lv|LV|lv|Iv)` at position `m`. */
  predicate IsMarker(s: string, m: nat) {
    m + 1 < |s| && (s[m], s[m + 1]) in {('L', 'v'), ('L', 'V'), ('l', 'v'), ('I', 'v')}
  }

  /** `\s*\+?\s*` spans `s[i..j]`. */
  predicate Gap(s: string, i: nat, j: nat) {
    j <= |s| &&
    (SpacesBetween(s, i, j)
     || exists k :: i <= k < j && s[k] == '+' && SpacesBetween(s, i, k) && SpacesBetween(s, k + 1, j))
  }

  /** The two skill-line patterns of `parse_skill_line`, tried in this order. */
  datatype Pattern =
    | WithMarker  // ([가-힣a-zA-Z][가-힣a-zA-Z0-9\s]*?)\s*(?:Lv|LV|lv|Iv)\s*\+?\s*(\d+)
    | PlusOnly    // ([가-힣a-zA-Z][가-힣a-zA-Z0-9\s]*?)\s+\+(\d+)

  /** `\s*(?:Lv|LV|lv|Iv)\s*\+?\s*` spans `s[e..a]`. */
  predicate MarkerLead(s: string, e: nat, a: nat) {
    exists m :: e <= m && m + 2 <= a && SpacesBetween(s, e, m) && IsMarker(s, m) && Gap(s, m + 2, a)
  }

  /** `\s+\+` spans `s[e..a]`. */
  predicate PlusLead(s: string, e: nat, a: nat) {
    e + 1 < a <= |s| && SpacesBetween(s, e, a - 1) && s[a - 1] == '+'
  }

  /** The part of the pattern between the name group and the digit group spans `s[e..a]`. */
  predicate Lead(p: Pattern, s: string, e: nat, a: nat) {
    match p
    case WithMarker => MarkerLead(s, e, a)
    case PlusOnly => PlusLead(s, e, a)
  }

  /**
   * What follows the name group matches from `e`, with the digit group at
   * `s[a..b]`: the regular expression itself, stated position by position.
   */
  predicate TailAt(p: Pattern, s: string, e: nat, a: nat, b: nat) {
    Lead(p, s, e, a) && a < b && DigitsBetween(s, a, b)
  }

  /** The scanner for `\s*(?:Lv|LV|lv|Iv)\s*\+?\s*`: where the digit group would start. */
  function MarkerLeadEnd(s: string, e: nat): (r: Option<nat>)
    requires e <= |s|
    ensures r.Some? ==> r.value <= |s| && MarkerLead(s, e, r.value)
  {
    var m := SkipSpaces(s, e);
    if IsMarker(s, m) then
      var q := SkipSpaces(s, m + 2);
      if q < |s| && s[q] == '+' then
        var a := SkipSpaces(s, q + 1);
        assert Gap(s, m + 2, a) by {
          assert s[q] == '+' && SpacesBetween(s, m + 2, q) && SpacesBetween(s, q + 1, a);
        }
        Some(a)
      else Some(q)
    else None
  }

  /** The scanner for `\s+\+`: where the digit group would start. */
  function PlusLeadEnd(s: string, e: nat): (r: Option<nat>)
    requires e <= |s|
    ensures r.Some? ==> r.value <= |s| && PlusLead(s, e, r.value)
  {
    if e < |s| && IsSpace(s[e]) then
      var q := SkipSpaces(s, e);
      if q < |s| && s[q] == '+' then Some(q + 1) else None
    else None
  }

  function LeadEnd(p: Pattern, s: string, e: nat): (r: Option<nat>)
    requires e <= |s|
    ensures r.Some? ==> r.value <= |s| && Lead(p, s, e, r.value)
  {
    match p
    case WithMarker => MarkerLeadEnd(s, e)
    case PlusOnly => PlusLeadEnd(s, e)
  }

  /** The scanner for the part after the name: the digit group it captures, if the tail matches at `e`. */
  function Tail(p: Pattern, s: string, e: nat): (r: Option<(nat, nat)>)
    requires e <= |s|
    ensures r.Some? ==> TailAt(p, s, e, r.value.0, r.value.1)
    ensures r.Some? ==> r.value.1 == |s| || !IsDigit(s[r.value.1])
  {
    match LeadEnd(p, s, e)
    case None => None
    case Some(a) =>
      var b := DigitsEnd(s, a);
      if a < b then Some((a, b)) else None
  }

  /** Whenever the marker lead spans `s[e..a]` and a digit follows, the scanner stops at `a`. */
  lemma MarkerLeadComplete(s: string, e: nat, a: nat)
    requires e <= a < |s| && MarkerLead(s, e, a) && IsDigit(s[a])
    ensures MarkerLeadEnd(s, e) == Some(a)
  {
    var m :| e <= m && m + 2 <= a && SpacesBetween(s, e, m) && IsMarker(s, m) && Gap(s, m + 2, a);
    MarkerLeadCompleteAt(s, e, m, a);
  }

  lemma MarkerLeadCompleteAt(s: string, e: nat, m: nat, a: nat)
    requires e <= m && m + 2 <= a < |s| && IsDigit(s[a])
    requires SpacesBetween(s, e, m) && IsMarker(s, m) && Gap(s, m + 2, a)
    ensures MarkerLeadEnd(s, e) == Some(a)
  {
    assert !IsSpace(s[m]) by {
      assert s[m] in "LlI";
    }
    SkipSpacesStops(s, e, m);
    GapComplete(s, m + 2, a);
    MarkerLeadEndAt(s, e, m);
  }

  /** The marker scanner once the spaces before the marker at `m` are skipped. */
  lemma MarkerLeadEndAt(s: string, e: nat, m: nat)
    requires IsMarker(s, m) && e <= m && SkipSpaces(s, e) == m
    ensures var q := SkipSpaces(s, m + 2);
      MarkerLeadEnd(s, e) == if q < |s| && s[q] == '+' then Some(SkipSpaces(s, q + 1)) else Some(q)
  {
  }

  /** Whenever `\s*\+?\s*` spans `s[j..a]` and a digit follows, the two space scans around the optional plus stop at `a`. */
  lemma GapComplete(s: string, j: nat, a: nat)
    requires j <= a < |s| && Gap(s, j, a) && IsDigit(s[a])
    ensures var q := SkipSpaces(s, j);
      && (q < |s| && s[q] == '+' ==> SkipSpaces(s, q + 1) == a)
      && (!(q < |s| && s[q] == '+') ==> q == a)
  {
    if SpacesBetween(s, j, a) {
      SkipSpacesStops(s, j, a);
    } else {
      var k :| j <= k < a && s[k] == '+' && SpacesBetween(s, j, k) && SpacesBetween(s, k + 1, a);
      SkipSpacesStops(s, j, k);
      SkipSpacesStops(s, k + 1, a);
    }
  }

  /** Whenever the plus lead spans `s[e..a]`, the scanner stops at `a`. */
  lemma PlusLeadComplete(s: string, e: nat, a: nat)
    requires e <= a <= |s| && PlusLead(s, e, a)
    ensures PlusLeadEnd(s, e) == Some(a)
  {
    SkipSpacesStops(s, e, a - 1);
  }

  /**
   * The scanner finds every tail the regular expression admits: whenever the
   * tail matches at `e` with digits `s[a..b]`, the scanner captures digits
   * from the same `a` to at least `b` (the greedy `\d+`).
   */
  lemma TailComplete(p: Pattern, s: string, e: nat, a: nat, b: nat)
    requires e <= |s| && TailAt(p, s, e, a, b)
    ensures Tail(p, s, e).Some? && Tail(p, s, e).value.0 == a && b <= Tail(p, s, e).value.1
  {
    if p.WithMarker? {
      MarkerLeadComplete(s, e, a);
    } else {
      PlusLeadComplete(s, e, a);
    }
    var d := DigitsEnd(s, a);
    assert b <= d;
  }

  /** `s[i..e]` matches the name group `[가-힣a-zA-Z][가-힣a-zA-Z0-9\s]*`. */
  predicate NameAt(s: string, i: nat, e: nat) {
    i < e <= |s| && IsNameStart(s[i]) && forall k :: i < k < e ==> NameCharAt(s, k)
  }

  /** `s[k]` exists and may continue a name. */
  predicate NameCharAt(s: string, k: nat) {
    k < |s| && IsNameChar(s[k])
  }

  /** Where the tail matches, end by end: `tails[e]` for each end `e` from 0 to `|s|`. */
  function Tails(p: Pattern, s: string): (t: seq<bool>)
    ensures |t| == |s| + 1
  {
    seq(|s| + 1, e requires 0 <= e <= |s| => Tail(p, s, e).Some?)
  }

  /** The lazy name group: the first end from `e` on at which the tail matches. */
  function LazyEnd(tails: seq<bool>, s: string, i: nat, e: nat): (r: Option<nat>)
    requires |tails| == |s| + 1 && NameAt(s, i, e)
    ensures r.Some? ==> e <= r.value && NameAt(s, i, r.value) && tails[r.value]
    decreases |s| - e
  {
    if tails[e] then Some(e)
    else if NameCharAt(s, e) then
      assert NameAt(s, i, e + 1);
      LazyEnd(tails, s, i, e + 1)
    else None
  }

  /** The lazy end is the first that works: the tail matches at no end from `e` before the one found. */
  lemma {:induction false} LazyEndFirst(tails: seq<bool>, s: string, i: nat, e: nat, f: nat)
    requires |tails| == |s| + 1 && NameAt(s, i, e) && e <= f
    requires LazyEnd(tails, s, i, e).Some? && f < LazyEnd(tails, s, i, e).value
    ensures !tails[f]
    decreases f - e
  {
    if f > e {
      assert NameCharAt(s, e);
      assert NameAt(s, i, e + 1);
      LazyEndFirst(tails, s, i, e + 1, f);
    }
  }

  /** When no lazy end is found, the tail matches after no possible name from `e` on. */
  lemma {:induction false} LazyEndNone(tails: seq<bool>, s: string, i: nat, e: nat, f: nat)
    requires |tails| == |s| + 1 && NameAt(s, i, e) && e <= f && NameAt(s, i, f)
    requires LazyEnd(tails, s, i, e).None?
    ensures !tails[f]
    decreases f - e
  {
    if f > e {
      assert NameCharAt(s, e);
      assert NameAt(s, i, e + 1);
      LazyEndNone(tails, s, i, e + 1, f);
    }
  }

  /** The spans of a skill-line match: group 1 is `s[nameStart..nameEnd]`, group 2 `s[numStart..numEnd]`. */
  datatype SkillMatch = SkillMatch(nameStart: nat, nameEnd: nat, numStart: nat, numEnd: nat)

  /** The match attempt at start position `i`. */
  function MatchAt(p: Pattern, s: string, i: nat): (r: Option<SkillMatch>)
    requires i < |s|
    ensures r.Some? ==> r.value.nameStart == i && NameAt(s, i, r.value.nameEnd)
    ensures r.Some? ==> Tail(p, s, r.value.nameEnd) == Some((r.value.numStart, r.value.numEnd))
    ensures r.Some? ==> forall e :: i < e < r.value.nameEnd ==> Tail(p, s, e).None?
    ensures r.None? ==> forall e :: i < e <= |s| && NameAt(s, i, e) ==> Tail(p, s, e).None?
  {
    if IsNameStart(s[i]) then
      var tails := Tails(p, s);
      assert NameAt(s, i, i + 1);
      match LazyEnd(tails, s, i, i + 1)
      case Some(e) =>
        var t := Tail(p, s, e).value;
        assert forall f :: i < f < e ==> Tail(p, s, f).None? by {
          forall f | i < f < e
            ensures Tail(p, s, f).None?
          {
            LazyEndFirst(tails, s, i, i + 1, f);
          }
        }
        Some(SkillMatch(i, e, t.0, t.1))
      case None =>
        assert forall f :: i < f <= |s| && NameAt(s, i, f) ==> Tail(p, s, f).None? by {
          forall f | i < f <= |s| && NameAt(s, i, f)
            ensures Tail(p, s, f).None?
          {
            LazyEndNone(tails, s, i, i + 1, f);
          }
        }
        None
    else None
  }

  /** `re.search(pattern, s)` from position `from`: the first start position at which a match exists. */
  function Search(p: Pattern, s: string, from: nat): (r: Option<SkillMatch>)
    requires from <= |s|
    ensures r.Some? ==> from <= r.value.nameStart < |s| && MatchAt(p, s, r.value.nameStart) == r
    ensures r.Some? ==> forall i :: from <= i < r.value.nameStart ==> MatchAt(p, s, i).None?
    ensures r.None? ==> forall i :: from <= i < |s| ==> MatchAt(p, s, i).None?
    decreases |s| - from
  {
    if from == |s| then None
    else
      var here := MatchAt(p, s, from);
      if here.Some? then here
      else
        var r := Search(p, s, from + 1);
        var stop := if r.Some? then r.value.nameStart else |s|;
        assert forall i :: from <= i < stop ==> MatchAt(p, s, i).None? by {
          forall i | from <= i < stop
            ensures MatchAt(p, s, i).None?
          {
            if i == from {
              assert MatchAt(p, s, i) == here;
            }
          }
        }
        r
  }

  /** Any regex match pins down where the search stops: no later start, and at the same start no longer name. */
  lemma SearchReaches(p: Pattern, s: string, i: nat, e: nat, a: nat, b: nat)
    requires NameAt(s, i, e) && TailAt(p, s, e, a, b)
    ensures Search(p, s, 0).Some? && Search(p, s, 0).value.nameStart <= i
    ensures Search(p, s, 0).value.nameStart == i ==> Search(p, s, 0).value.nameEnd <= e
  {
    TailComplete(p, s, e, a, b);
    assert MatchAt(p, s, i).Some?;
  }

  /**
   * `re.search` semantics for both skill-line patterns: the match found is a
   * match of the regular expression; no match starts further left; at its
   * start no shorter name group works (lazy `*?`); and when nothing is found
   * the pattern matches nowhere.
   */
  lemma SearchIsLeftmostLazy(p: Pattern, s: string)
    ensures var r := Search(p, s, 0);
      r.Some? ==> (NameAt(s, r.value.nameStart, r.value.nameEnd)
        && TailAt(p, s, r.value.nameEnd, r.value.numStart, r.value.numEnd))
    ensures var r := Search(p, s, 0);
      r.Some? ==> forall i: nat, e: nat, a: nat, b: nat ::
        i < r.value.nameStart && NameAt(s, i, e) ==> !TailAt(p, s, e, a, b)
    ensures var r := Search(p, s, 0);
      r.Some? ==> forall e: nat, a: nat, b: nat ::
        e < r.value.nameEnd && NameAt(s, r.value.nameStart, e) ==> !TailAt(p, s, e, a, b)
    ensures Search(p, s, 0).None? ==> forall i: nat, e: nat, a: nat, b: nat :: NameAt(s, i, e) ==> !TailAt(p, s, e, a, b)
  {
    forall i: nat, e: nat, a: nat, b: nat | NameAt(s, i, e) && TailAt(p, s, e, a, b)
      ensures Search(p, s, 0).Some? && Search(p, s, 0).value.nameStart <= i
      ensures Search(p, s, 0).value.nameStart == i ==> Search(p, s, 0).value.nameEnd <= e
    {
      SearchReaches(p, s, i, e, a, b);
    }
  }

  // ------------------------------------------------------- the type pattern

  /** `s[k]` exists and is a Hangul syllable. */
  predicate HangulAt(s: string, k: nat) {
    k < |s| && IsHangul(s[k])
  }

  /** `[가-힣]` holds at every position of `s[i..j]`. */
  predicate HangulBetween(s: string, i: nat, j: nat) {
    j <= |s| && forall k :: i <= k < j ==> HangulAt(s, k)
  }

  /** `\s*의\s*` spans `s[j..k]`. */
  predicate LinkSpan(s: string, j: nat, k: nat) {
    exists q :: j <= q < k <= |s| && SpacesBetween(s, j, q) && s[q] == '의' && SpacesBetween(s, q + 1, k)
  }

  /**
   * `([가-힣]+)\s*의\s*([가-힣]+)` matches `s[i..l]`, with group 1 at
   * `s[i..j]` and group 2 at `s[k..l]`.
   */
  predicate TypeAt(s: string, i: nat, j: nat, k: nat, l: nat) {
    i < j && HangulBetween(s, i, j) && LinkSpan(s, j, k) && k < l && HangulBetween(s, k, l)
  }

  /** End of the Hangul run that starts at `p` (a greedy `[가-힣]*`). */
  function HangulEnd(s: string, p: nat): (q: nat)
    requires p <= |s|
    ensures p <= q && HangulBetween(s, p, q) && (q < |s| ==> !IsHangul(s[q]))
    decreases |s| - p
  {
    if p < |s| && IsHangul(s[p]) then HangulEnd(s, p + 1) else p
  }

  /** No Hangul run from `p` reaches past the greedy end. */
  lemma HangulEndMax(s: string, p: nat, q: nat)
    requires p <= |s| && HangulBetween(s, p, q)
    ensures q <= HangulEnd(s, p)
  {
    var h := HangulEnd(s, p);
    assert h < |s| ==> !HangulAt(s, h);
  }

  /**
   * `\s*의\s*` followed by a Hangul syllable, from position `j`: the start of
   * group 2 when this part matches.
   */
  function Link(s: string, j: nat): (r: Option<nat>)
    requires j <= |s|
    ensures r.Some? ==> j < r.value < |s| && IsHangul(s[r.value])
  {
    var q := SkipSpaces(s, j);
    if q < |s| && s[q] == '의' then
      var k := SkipSpaces(s, q + 1);
      if k < |s| && IsHangul(s[k]) then Some(k) else None
    else None
  }

  /** What `Link` finds is a span of `\s*의\s*`. */
  lemma LinkSound(s: string, j: nat)
    requires j <= |s| && Link(s, j).Some?
    ensures LinkSpan(s, j, Link(s, j).value)
  {
    var q := SkipSpaces(s, j);
    assert j <= q < Link(s, j).value && SpacesBetween(s, j, q) && s[q] == '의';
  }

  /** Every way `\s*의\s*` can reach a Hangul syllable is the one `Link` finds. */
  lemma LinkComplete(s: string, j: nat, k: nat)
    requires j <= |s| && LinkSpan(s, j, k) && HangulAt(s, k)
    ensures Link(s, j) == Some(k)
  {
    var q :| j <= q < k && SpacesBetween(s, j, q) && s[q] == '의' && SpacesBetween(s, q + 1, k);
    SkipSpacesStops(s, j, q);
    SkipSpacesStops(s, q + 1, k);
  }

  /** The greedy group 1: the largest end, from `j` down to `i + 1`, after which `Link` matches. */
  function GreedyEnd(s: string, i: nat, j: nat): (r: Option<nat>)
    requires i < j <= |s|
    ensures r.Some? ==> i < r.value <= j && Link(s, r.value).Some?
    ensures r.Some? ==> forall j' :: r.value < j' <= j ==> Link(s, j').None?
    ensures r.None? ==> forall j' :: i < j' <= j ==> Link(s, j').None?
    decreases j
  {
    if Link(s, j).Some? then Some(j)
    else if j > i + 1 then GreedyEnd(s, i, j - 1)
    else None
  }

  /** Where the groups of one match of the type pattern lie. */
  datatype TypeMatch = TypeMatch(start: nat, setEnd: nat, typeStart: nat, typeEnd: nat)

  /** The match of `([가-힣]+)\s*의\s*([가-힣]+)` at start `i`, as the backtracking matcher finds it. */
  function TypeMatchAt(s: string, i: nat): (r: Option<TypeMatch>)
    requires i < |s|
    ensures r.Some? ==> r.value.start == i && TypeAt(s, i, r.value.setEnd, r.value.typeStart, r.value.typeEnd)
    ensures r.Some? ==> r.value.typeEnd == HangulEnd(s, r.value.typeStart)
  {
    if IsHangul(s[i]) then
      var h := HangulEnd(s, i);
      match GreedyEnd(s, i, h)
      case Some(j) =>
        var k := Link(s, j).value;
        LinkSound(s, j);
        Some(TypeMatch(i, j, k, HangulEnd(s, k)))
      case None => None
    else None
  }

  /**
   * The matcher at `i` is the regex: it finds a match exactly when one
   * starts at `i`; group 1 is the longest that works, and for that group 1,
   * group 2 is the longest run.
   */
  lemma TypeMatchAtIsGreedy(s: string, i: nat, j: nat, k: nat, l: nat)
    requires i < |s| && TypeAt(s, i, j, k, l)
    ensures TypeMatchAt(s, i).Some?
    ensures j <= TypeMatchAt(s, i).value.setEnd
    ensures j == TypeMatchAt(s, i).value.setEnd ==>
      k == TypeMatchAt(s, i).value.typeStart && l <= TypeMatchAt(s, i).value.typeEnd
  {
    assert HangulAt(s, i);
    assert HangulAt(s, k);
    var h := HangulEnd(s, i);
    HangulEndMax(s, i, j);
    LinkComplete(s, j, k);
    HangulEndMax(s, k, l);
  }

  /** `re.search(r'([가-힣]+)\s*의\s*([가-힣]+)', s)` from position `from`: the leftmost start with a match. */
  function SearchType(s: string, from: nat): (r: Option<TypeMatch>)
    requires from <= |s|
    ensures r.Some? ==> from <= r.value.start < |s| && TypeMatchAt(s, r.value.start) == r
    ensures r.Some? ==> forall i :: from <= i < r.value.start ==> TypeMatchAt(s, i).None?
    ensures r.None? ==> forall i :: from <= i < |s| ==> TypeMatchAt(s, i).None?
    decreases |s| - from
  {
    if from == |s| then None
    else if TypeMatchAt(s, from).Some? then TypeMatchAt(s, from)
    else SearchType(s, from + 1)
  }

  /**
   * `re.search` for the type pattern, stated against the pattern itself: a
   * found match is genuine, nothing matches at an earlier start, and at its
   * start no longer group 1 works; no answer means nothing matches anywhere.
   */
  lemma SearchTypeIsLeftmostGreedy(s: string)
    ensures var r := SearchType(s, 0);
      r.Some? ==> TypeAt(s, r.value.start, r.value.setEnd, r.value.typeStart, r.value.typeEnd)
    ensures var r := SearchType(s, 0);
      r.Some? ==> forall i: nat, j: nat, k: nat, l: nat :: TypeAt(s, i, j, k, l) ==>
        r.value.start <= i && (r.value.start == i ==> j <= r.value.setEnd)
    ensures SearchType(s, 0).None? ==> forall i: nat, j: nat, k: nat, l: nat :: !TypeAt(s, i, j, k, l)
  {
    forall i: nat, j: nat, k: nat, l: nat | TypeAt(s, i, j, k, l)
      ensures SearchType(s, 0).Some? && SearchType(s, 0).value.start <= i
      ensures SearchType(s, 0).value.start == i ==> j <= SearchType(s, 0).value.setEnd
    {
      assert i < |s| by { assert HangulAt(s, i); }
      TypeMatchAtIsGreedy(s, i, j, k, l);
    }
  }

  /** The text of group 1 of a match. */
  function SetGroup(s: string, m: TypeMatch): string
    requires m.start <= m.setEnd <= |s|
  {
    s[m.start..m.setEnd]
  }

  /** The text of group 2 of a match. */
  function TypeGroup(s: string, m: TypeMatch): string
    requires m.typeStart <= m.typeEnd <= |s|
  {
    s[m.typeStart..m.typeEnd]
  }

  /** No set or type name is empty. */
  lemma NamesNonEmpty()
    ensures "" !in SetNames && "" !in TypeNames
  {
    assert forall k :: 0 <= k < |SetNames| ==> |SetNames[k]| > 0;
    assert forall k :: 0 <= k < |TypeNames| ==> |TypeNames[k]| > 0;
  }

  /** The two groups of the leftmost type match of `line`, if there is one. */
  function TypeGroups(line: string): (r: Option<(string, string)>)
    ensures r.Some? <==> SearchType(line, 0).Some?
    ensures r.Some? ==>
      var m := SearchType(line, 0).value;
      r.value == (line[m.start..m.setEnd], line[m.typeStart..m.typeEnd])
  {
    match SearchType(line, 0)
    case None => None
    case Some(m) => Some((SetGroup(line, m), TypeGroup(line, m)))
  }

  /** `parse_type_name(line)`: a set name and a type name together, or neither. */
  function ParseTypeName(line: string): (r: Option<(string, string)>)
    ensures r.Some? ==> r.value.0 in SetNames && r.value.1 in TypeNames
    ensures r.Some? <==>
      && TypeGroups(line).Some?
      && ExactMatch(TypeGroups(line).value.0, SetNames).Some?
      && ExactMatch(TypeGroups(line).value.1, TypeNames).Some?
    ensures r.Some? ==>
      r.value == (ExactMatch(TypeGroups(line).value.0, SetNames).value,
                  ExactMatch(TypeGroups(line).value.1, TypeNames).value)
  {
    match TypeGroups(line)
    case None => None
    case Some(g) =>
      NamesNonEmpty();
      var s := ExactMatch(g.0, SetNames);
      var t := ExactMatch(g.1, TypeNames);
      if s.Some? && s.value != "" && t.Some? && t.value != "" then Some((s.value, t.value)) else None
  }

  /** A greedy Hangul run from `p` that is followed by a non-Hangul character, or the end, ends exactly there. */
  lemma HangulEndIs(s: string, p: nat, q: nat)
    requires p <= q && HangulBetween(s, p, q) && (q < |s| ==> !IsHangul(s[q]))
    ensures HangulEnd(s, p) == q
  {
    HangulEndMax(s, p, q);
    var h := HangulEnd(s, p);
    assert q < h ==> HangulAt(s, q);
  }

  /** Text without a plain space loses nothing to `replace(' ', '')`. */
  lemma {:induction false} RemoveSpacesNone(s: string)
    requires ' ' !in s
    ensures RemoveSpaces(s) == s
  {
    if s != [] {
      assert s[0] != ' ';
      assert s == [s[0]] + s[1..];
      RemoveSpacesNone(s[1..]);
    }
  }

  /** A non-empty run of Hangul syllables. */
  predicate HangulWord(w: string) {
    w != [] && forall i :: 0 <= i < |w| ==> IsHangul(w[i])
  }

  /**
   * The line `a의 b`, for Hangul words `a` and `b` where `b` does not start
   * with 의: the type pattern takes `a` as group 1 and `b` as group 2.
   */
  lemma TypeLineGroups(line: string, a: string, b: string)
    requires HangulWord(a) && HangulWord(b) && b[0] != '의'
    requires line == a + "의 " + b
    ensures TypeGroups(line) == Some((a, b))
  {
    var n := |a|;
    assert line[n] == '의' && line[n + 1] == ' ' && line[n + 2] == b[0];
    assert HangulBetween(line, 0, n + 1) by {
      forall k | 0 <= k < n + 1 ensures HangulAt(line, k) {
        if k < n {
          assert line[k] == a[k];
        }
      }
    }
    assert HangulBetween(line, n + 2, |line|) by {
      forall k | n + 2 <= k < |line| ensures HangulAt(line, k) {
        assert line[k] == b[k - n - 2];
      }
    }
    assert HangulBetween(line, 0, n) by {
      forall k | 0 <= k < n ensures HangulAt(line, k) {
        assert HangulAt(line, k);
      }
    }
    assert SpacesBetween(line, n + 1, n + 2) by {
      assert SpaceAt(line, n + 1);
    }
    assert LinkSpan(line, n, n + 2);
    assert TypeAt(line, 0, n, n + 2, |line|);
    HangulEndIs(line, 0, n + 1);
    SkipSpacesStops(line, n + 1, n + 2);
    assert Link(line, n + 1).None?;
    TypeMatchAtIsGreedy(line, 0, n, n + 2, |line|);
    var m := TypeMatchAt(line, 0).value;
    HangulEndMax(line, 0, m.setEnd);
    assert m == TypeMatch(0, n, n + 2, |line|);
    assert line[0..n] == a && line[n + 2..|line|] == b;
  }

  /** Every set and type name is a Hangul word that does not start with 의. */
  lemma ListedWords(w: string)
    requires w in SetNames || w in TypeNames
    ensures HangulWord(w) && w[0] != '의' && ' ' !in w
  {
  }

  /**
   * A line `set의 type` for a listed set name and a listed type name gives that pair, as
   * `parse_type_name` returns it.
   */
  lemma ParseTypeLine(line: string, setName: string, typeName: string)
    requires setName in SetNames && typeName in TypeNames
    requires line == setName + "의 " + typeName
    ensures ParseTypeName(line) == Some((setName, typeName))
  {
    ListedWords(setName);
    ListedWords(typeName);
    TypeLineGroups(line, setName, typeName);
    RemoveSpacesNone(setName);
    RemoveSpacesNone(typeName);
  }

  /** "활력의 성배" names the set 활력 and the type 성배. */
  lemma TypeLineExample(line: string)
    requires line == "활력의 성배"
    ensures ParseTypeName(line) == Some(("활력", "성배"))
  {
    assert line == "활력" + "의 " + "성배";
    ParseTypeLine(line, "활력", "성배");
  }

  // ------------------------------------------------------- parse_skill_line

  /** A name as `clean_skill_name` leaves it: Hangul syllables and single inner spaces. */
  predicate IsCleanName(name: string) {
    (forall i :: 0 <= i < |name| ==> IsHangul(name[i]) || name[i] == ' ') && Squished(name)
  }

  /** The spans of a found match lie inside the line, and group 2 is all digits. */
  lemma SearchSpans(p: Pattern, t: string, m: SkillMatch)
    requires Search(p, t, 0) == Some(m)
    ensures m.nameStart < m.nameEnd <= m.numStart < m.numEnd <= |t|
    ensures AllDigits(t[m.numStart..m.numEnd])
  {
    assert TailAt(p, t, m.nameEnd, m.numStart, m.numEnd);
    assert forall k :: 0 <= k < m.numEnd - m.numStart ==> t[m.numStart..m.numEnd][k] == t[m.numStart + k];
  }

  lemma LevelOfDigits(digits: string)
    requires |digits| > 0 && AllDigits(digits)
    ensures IsLevel("+" + digits)
  {
    assert ("+" + digits)[1..] == digits;
  }

  /** `match_skill(name) or name`: the matched skill, or the name itself when nothing matches. */
  function MatchedOr(name: string): (r: string)
    ensures r in Skills || r == name
    ensures Cascade(name, Skills).None? ==> r == name
  {
    match Cascade(name, Skills)
    case Some(v) => v
    case None => name
  }

  /** `if name and len(name) >= 2 and not is_ignored(name)`: a cleaned name worth keeping. */
  predicate Usable(name: string) {
    |name| >= 2 && !IsIgnored(name)
  }

  /** The name an entry gets is a listed skill, or a usable cleaned name. */
  lemma ChosenName(name: string)
    requires IsCleanName(name)
    requires |name| >= 2 && !IsIgnored(name)
    ensures MatchedOr(name) in Skills || (|MatchedOr(name)| >= 2 && !IsIgnored(MatchedOr(name)) && IsCleanName(MatchedOr(name)))
  {
  }

  /**
   * The entry built from one match: the cleaned name group, replaced by its
   * `match_skill` result when there is one, and `+` with the digit group.
   */
  function SkillFromMatch(t: string, m: SkillMatch): (r: Option<Skill>)
    requires m.nameStart <= m.nameEnd <= |t| && m.numStart < m.numEnd <= |t|
    requires AllDigits(t[m.numStart..m.numEnd])
    ensures r.Some? ==> IsLevel(r.value.level)
    ensures r.Some? ==> r.value.name in Skills || (|r.value.name| >= 2 && !IsIgnored(r.value.name) && IsCleanName(r.value.name))
    ensures r.Some? <==> Usable(CleanSkillName(t[m.nameStart..m.nameEnd]))
    ensures r.Some? ==> r.value.level == "+" + t[m.numStart..m.numEnd]
    ensures r.Some? ==> r.value.name == MatchedOr(CleanSkillName(t[m.nameStart..m.nameEnd]))
  {
    var digits := t[m.numStart..m.numEnd];
    LevelOfDigits(digits);
    var name := CleanSkillName(t[m.nameStart..m.nameEnd]);
    if |name| >= 2 && !IsIgnored(name) then
      ChosenName(name);
      Some(Skill(MatchedOr(name), "+" + digits))
    else None
  }

  /** One pattern of `parse_skill_line`'s loop on the trimmed line `t`. */
  function TryPattern(p: Pattern, t: string): (r: Option<Skill>)
    ensures r.Some? ==> Search(p, t, 0).Some?
    ensures r.Some? ==> IsLevel(r.value.level)
    ensures r.Some? ==> r.value.name in Skills || (|r.value.name| >= 2 && !IsIgnored(r.value.name) && IsCleanName(r.value.name))
    ensures Search(p, t, 0).Some? ==>
      var m := Search(p, t, 0).value;
      && (r.Some? <==> Usable(CleanSkillName(t[m.nameStart..m.nameEnd])))
      && (r.Some? ==> r.value == Skill(MatchedOr(CleanSkillName(t[m.nameStart..m.nameEnd])), "+" + t[m.numStart..m.numEnd]))
  {
    match Search(p, t, 0)
    case None => None
    case Some(m) =>
      SearchSpans(p, t, m);
      SkillFromMatch(t, m)
  }

  /**
   * `parse_skill_line(text)`: nothing for a blank or ignored line; otherwise
   * the first pattern whose match yields a usable name, with the level `+N`.
   */
  function ParseSkillLine(text: string): (r: Option<Skill>)
    ensures Strip(text) == [] || IsIgnored(Strip(text)) ==> r.None?
    ensures r.Some? ==> IsLevel(r.value.level)
    ensures r.Some? ==> r.value.name in Skills || (|r.value.name| >= 2 && !IsIgnored(r.value.name) && IsCleanName(r.value.name))
    ensures r.Some? ==> Search(WithMarker, Strip(text), 0).Some? || Search(PlusOnly, Strip(text), 0).Some?
    ensures Strip(text) != [] && !IsIgnored(Strip(text)) ==>
      && (TryPattern(WithMarker, Strip(text)).Some? ==> r == TryPattern(WithMarker, Strip(text)))
      && (TryPattern(WithMarker, Strip(text)).None? ==> r == TryPattern(PlusOnly, Strip(text)))
  {
    var t := Strip(text);
    if t == [] || IsIgnored(t) then None
    else match TryPattern(WithMarker, t)
      case Some(sk) => Some(sk)
      case None => TryPattern(PlusOnly, t)
  }

  // --------------------------------------------- what parse_skill_line finds

  lemma {:induction false} KeepNameCharsKeeps(s: string)
    requires forall i :: 0 <= i < |s| ==> IsHangul(s[i]) || IsSpace(s[i])
    ensures KeepNameChars(s) == s
  {
    if s != [] {
      assert forall i :: 0 <= i < |s| - 1 ==> s[1..][i] == s[i + 1];
      KeepNameCharsKeeps(s[1..]);
      assert s == [s[0]] + s[1..];
    }
  }

  /** A name already in the form `clean_skill_name` produces is left as it is. */
  lemma CleanNameKeeps(name: string)
    requires IsCleanName(name)
    ensures CleanSkillName(name) == name
  {
    KeepNameCharsKeeps(name);
    SquishKeeps(name);
  }

  /** No tail starts inside a clean name that opens the line. */
  lemma NoTailInName(p: Pattern, s: string, n: string, e: nat)
    requires IsCleanName(n) && n != [] && |n| <= |s| && s[..|n|] == n && e < |n|
    ensures Tail(p, s, e).None?
  {
    if Tail(p, s, e).Some? {
      var a := Tail(p, s, e).value.0;
      if p.WithMarker? {
        NoMarkerLeadInName(s, n, e, a);
      } else {
        NoPlusLeadInName(s, n, e, a);
      }
    }
  }

  lemma NoMarkerLeadInName(s: string, n: string, e: nat, a: nat)
    requires IsCleanName(n) && n != [] && |n| <= |s| && s[..|n|] == n && e < |n|
    ensures !MarkerLead(s, e, a)
  {
    var last := |n| - 1;
    assert s[last] == n[last];
    assert !SpaceAt(s, last);
    forall m: nat | m < |n|
      ensures !IsMarker(s, m)
    {
      assert s[m] == n[m];
    }
  }

  lemma NoPlusLeadInName(s: string, n: string, e: nat, a: nat)
    requires IsCleanName(n) && n != [] && |n| <= |s| && s[..|n|] == n && e < |n|
    ensures !PlusLead(s, e, a)
  {
    var last := |n| - 1;
    assert s[last] == n[last];
    assert !SpaceAt(s, last);
    forall k | 0 <= k < |n|
      ensures s[k] != '+'
    {
      assert s[k] == n[k];
    }
  }

  /** A name from the start of the line, with the tail matching right after it and nowhere before, is the search result. */
  lemma SearchAtStart(p: Pattern, s: string, e: nat, a: nat, b: nat)
    requires 0 < e <= |s| && NameAt(s, 0, e) && Tail(p, s, e) == Some((a, b))
    requires forall f :: 0 < f < e ==> Tail(p, s, f).None?
    ensures Search(p, s, 0) == Some(SkillMatch(0, e, a, b))
  {
    var m := MatchAt(p, s, 0);
    assert m.Some?;
    assert m.value.nameEnd == e;
  }

  /** Text without any `Lv`-style marker gives the first pattern nothing to match. */
  lemma NoMarkerNoMatch(s: string)
    requires forall m :: !IsMarker(s, m)
    ensures Search(WithMarker, s, 0).None?
  {
  }

  /** A line that opens with a clean name: the name group can span it, and no tail starts inside it. */
  lemma OpensWithName(p: Pattern, s: string, n: string)
    requires IsCleanName(n) && n != [] && |n| <= |s| && s[..|n|] == n
    ensures NameAt(s, 0, |n|)
    ensures forall f :: 0 < f < |n| ==> Tail(p, s, f).None?
  {
    assert s[0] == n[0];
    assert forall k :: 0 <= k < |n| ==> s[k] == n[k];
    forall f | 0 < f < |n|
      ensures Tail(p, s, f).None?
    {
      NoTailInName(p, s, n, f);
    }
  }

  /** After the name, ` Lv +` and digits are the first pattern's tail, digits and all. */
  lemma MarkerTail(s: string, n: string, d: string, rest: string)
    requires s == n + " Lv +" + d + rest
    requires IsCleanName(n) && n != [] && d != [] && AllDigits(d)
    requires rest == [] || !IsDigit(rest[0])
    ensures Tail(WithMarker, s, |n|) == Some((|n| + 5, |n| + 5 + |d|))
    ensures s[..|n|] == n && s[|n| + 5..|n| + 5 + |d|] == d
    ensures NameThenTail(WithMarker, s, n, |n| + 5, |n| + 5 + |d|, d)
    ensures !IsSpace(s[0])
  {
    MarkerChars(s, n, d, rest);
    MarkerTailAt(s, |n|, |n| + 5 + |d|);
  }

  /** Where the name, the marker, the digits and the rest sit in such a line. */
  lemma MarkerChars(s: string, n: string, d: string, rest: string)
    requires s == n + " Lv +" + d + rest
    requires IsCleanName(n) && n != [] && AllDigits(d)
    requires rest == [] || !IsDigit(rest[0])
    ensures |n| + 5 + |d| <= |s|
    ensures s[..|n|] == n && s[|n| + 5..|n| + 5 + |d|] == d && !IsSpace(s[0])
    ensures s[|n|] == ' ' && s[|n| + 1] == 'L' && s[|n| + 2] == 'v' && s[|n| + 3] == ' ' && s[|n| + 4] == '+'
    ensures DigitsBetween(s, |n| + 5, |n| + 5 + |d|)
    ensures |n| + 5 + |d| < |s| ==> !IsDigit(s[|n| + 5 + |d|])
  {
    assert s[0] == n[0];
    var e, b := |n|, |n| + 5 + |d|;
    forall k | e + 5 <= k < b ensures IsDigit(s[k]) {
      assert s[k] == d[k - e - 5];
    }
    assert b < |s| ==> s[b] == rest[0];
  }

  /** ` Lv +` at `e` and a digit run over `e + 5..b` that ends there are the first pattern's tail. */
  lemma MarkerTailAt(s: string, e: nat, b: nat)
    requires e + 5 < b <= |s|
    requires s[e] == ' ' && s[e + 1] == 'L' && s[e + 2] == 'v' && s[e + 3] == ' ' && s[e + 4] == '+'
    requires DigitsBetween(s, e + 5, b) && (b < |s| ==> !IsDigit(s[b]))
    ensures Tail(WithMarker, s, e) == Some((e + 5, b))
  {
    assert Gap(s, e + 3, e + 5) by {
      assert s[e + 4] == '+' && SpacesBetween(s, e + 3, e + 4) && SpacesBetween(s, e + 5, e + 5);
    }
    assert SpacesBetween(s, e, e + 1) && IsMarker(s, e + 1);
    assert TailAt(WithMarker, s, e, e + 5, b);
    TailComplete(WithMarker, s, e, e + 5, b);
  }

  /** After the name, one space, `+` and digits to the end are the fall-back pattern's tail, and no marker occurs. */
  lemma PlusTail(s: string, n: string, d: string)
    requires s == n + " +" + d
    requires IsCleanName(n) && n != [] && d != [] && AllDigits(d)
    ensures Tail(PlusOnly, s, |n|) == Some((|n| + 2, |s|))
    ensures s[..|n|] == n && s[|n| + 2..|s|] == d
    ensures NameThenTail(PlusOnly, s, n, |n| + 2, |s|, d)
    ensures forall m :: !IsMarker(s, m)
    ensures !IsSpace(s[0])
  {
    var e := |n|;
    assert s[e] == ' ' && s[e + 1] == '+';
    assert forall k :: 0 <= k < e ==> s[k] == n[k];
    assert forall k :: e + 2 <= k < |s| ==> s[k] == d[k - e - 2];
    assert DigitsBetween(s, e + 2, |s|);
    assert TailAt(PlusOnly, s, e, e + 2, |s|);
    TailComplete(PlusOnly, s, e, e + 2, |s|);
    assert s[..e] == n && s[e + 2..|s|] == d;
  }

  /** A line that starts and ends with a non-space is its own strip. */
  lemma StrippedLine(s: string, a: string, b: string)
    requires s == a + b && s != [] && !IsSpace(s[0]) && b != [] && !IsSpace(b[|b| - 1])
    ensures Strip(s) == s
  {
    LastOfAppend(a, b);
    StripKeeps(s);
  }

  lemma LastOfAppend(a: string, b: string)
    requires b != []
    ensures (a + b)[|a + b| - 1] == b[|b| - 1]
  {
  }

  /** A stripped, kept line takes the first pattern's entry when there is one. */
  lemma ParseFirstPattern(s: string, sk: Skill)
    requires Strip(s) == s && s != [] && !IsIgnored(s)
    requires TryPattern(WithMarker, s) == Some(sk)
    ensures ParseSkillLine(s) == Some(sk)
  {
  }

  /** A stripped, kept line falls back to the second pattern when the first gives nothing. */
  lemma ParseSecondPattern(s: string, sk: Skill)
    requires Strip(s) == s && s != [] && !IsIgnored(s)
    requires TryPattern(WithMarker, s) == None && TryPattern(PlusOnly, s) == Some(sk)
    ensures ParseSkillLine(s) == Some(sk)
  {
  }

  /** `s` opens with `n`, and the pattern's tail after it spans `a..b`, whose digits are `d`. */
  predicate NameThenTail(p: Pattern, s: string, n: string, a: nat, b: nat, d: string)
  {
    |n| <= |s| && s[..|n|] == n && Tail(p, s, |n|) == Some((a, b)) && a <= b <= |s| && s[a..b] == d
  }

  /**
   * The entry a pattern gives for a line that opens with a clean, usable
   * name followed directly by that pattern's tail.
   */
  lemma TryPatternAtName(p: Pattern, s: string, n: string, a: nat, b: nat, d: string)
    requires IsCleanName(n) && Usable(n) && NameThenTail(p, s, n, a, b, d)
    ensures TryPattern(p, s) == Some(Skill(MatchedOr(n), "+" + d))
  {
    OpensWithName(p, s, n);
    SearchAtStart(p, s, |n|, a, b);
    assert s[0..|n|] == n;
    CleanNameKeeps(n);
  }

  /** The first pattern's entry for a clean name, ` Lv +`, digits and the rest. */
  lemma MarkerLineEntry(s: string, n: string, d: string, rest: string)
    requires s == n + " Lv +" + d + rest
    requires IsCleanName(n) && Usable(n)
    requires d != [] && AllDigits(d)
    requires rest == [] || !IsDigit(rest[0])
    ensures TryPattern(WithMarker, s) == Some(Skill(MatchedOr(n), "+" + d))
  {
    MarkerTail(s, n, d, rest);
    TryPatternAtName(WithMarker, s, n, |n| + 5, |n| + 5 + |d|, d);
  }

  /** Such a line is its own strip when the rest ends in a non-space. */
  lemma MarkerLineStripped(s: string, n: string, d: string, rest: string)
    requires s == n + " Lv +" + d + rest
    requires IsCleanName(n) && n != [] && d != [] && AllDigits(d)
    requires rest == [] || !IsSpace(rest[|rest| - 1])
    ensures Strip(s) == s
  {
    assert s[0] == n[0];
    if rest == [] {
      assert s == (n + " Lv +") + d;
      StrippedLine(s, n + " Lv +", d);
    } else {
      StrippedLine(s, n + " Lv +" + d, rest);
    }
  }

  /** The fall-back pattern's entry for a clean name, ` +` and digits; the first pattern finds nothing. */
  lemma PlusLineEntry(s: string, n: string, d: string)
    requires s == n + " +" + d
    requires IsCleanName(n) && Usable(n)
    requires d != [] && AllDigits(d)
    ensures TryPattern(WithMarker, s) == None
    ensures TryPattern(PlusOnly, s) == Some(Skill(MatchedOr(n), "+" + d))
  {
    PlusTail(s, n, d);
    NoMarkerNoMatch(s);
    TryPatternAtName(PlusOnly, s, n, |n| + 2, |s|, d);
  }

  lemma PlusLineStripped(s: string, n: string, d: string)
    requires s == n + " +" + d
    requires IsCleanName(n) && n != [] && d != [] && AllDigits(d)
    ensures Strip(s) == s
  {
    assert s[0] == n[0];
    StrippedLine(s, n + " +", d);
  }

  /**
   * Completeness for the first pattern: a clean, usable name, then ` Lv +`
   * and digits (possibly followed by more text that does not continue the
   * digits) gives that name, or the skill it matches, at `+` those digits.
   */
  lemma ParseMarkerLine(n: string, d: string, rest: string)
    requires IsCleanName(n) && Usable(n)
    requires d != [] && AllDigits(d)
    requires rest == [] || (!IsDigit(rest[0]) && !IsSpace(rest[|rest| - 1]))
    requires !IsIgnored(n + " Lv +" + d + rest)
    ensures ParseSkillLine(n + " Lv +" + d + rest) == Some(Skill(MatchedOr(n), "+" + d))
  {
    var s := n + " Lv +" + d + rest;
    MarkerLineEntry(s, n, d, rest);
    MarkerLineStripped(s, n, d, rest);
    ParseFirstPattern(s, Skill(MatchedOr(n), "+" + d));
  }

  /**
   * Completeness for the fall-back pattern: a clean, usable name, one space,
   * `+` and digits gives that name, or the skill it matches, at `+` those
   * digits; the first pattern finds no marker there.
   */
  lemma ParsePlusLine(n: string, d: string)
    requires IsCleanName(n) && Usable(n)
    requires d != [] && AllDigits(d)
    requires !IsIgnored(n + " +" + d)
    ensures ParseSkillLine(n + " +" + d) == Some(Skill(MatchedOr(n), "+" + d))
  {
    var s := n + " +" + d;
    PlusLineEntry(s, n, d);
    PlusLineStripped(s, n, d);
    ParseSecondPattern(s, Skill(MatchedOr(n), "+" + d));
  }

  // ------------------------------------------------------------ examples

  lemma {:induction false} NonSpaceFrom(s: string, c: char)
    requires c in NonSpace(s)
    ensures c in s
  {
    if s != [] && c != s[0] {
      assert NonSpace(s) == (if IsSpace(s[0]) then [] else [s[0]]) + NonSpace(s[1..]);
      NonSpaceFrom(s[1..], c);
    }
  }

  /** The first syllables of the ignore words. */
  predicate IsIgnoreInitial(c: char) {
    c == '강' || c == '장' || c == '세' || c == '성' || c == '양' || c == '나' || c == '거' || c == '천'
  }

  lemma IgnoreWordsStart()
    ensures forall j :: 0 <= j < |IgnoreWords| ==> IgnoreWords[j] != [] && IsIgnoreInitial(IgnoreWords[j][0])
  {
    assert |IgnoreWords| == 11;
    forall j | 0 <= j < 11
      ensures IgnoreWords[j] != [] && IsIgnoreInitial(IgnoreWords[j][0])
    {
      if j == 0 { assert IgnoreWords[0] == "강화 단계"; }
      else if j == 1 { assert IgnoreWords[1] == "강화단계"; }
      else if j == 2 { assert IgnoreWords[2] == "장착 효과"; }
      else if j == 3 { assert IgnoreWords[3] == "장착효과"; }
      else if j == 4 { assert IgnoreWords[4] == "세트 효과"; }
      else if j == 5 { assert IgnoreWords[5] == "세트효과"; }
      else if j == 6 { assert IgnoreWords[6] == "성배"; }
      else if j == 7 { assert IgnoreWords[7] == "양피지"; }
      else if j == 8 { assert IgnoreWords[8] == "나침반"; }
      else if j == 9 { assert IgnoreWords[9] == "거울"; }
      else { assert IgnoreWords[10] == "천칭"; }
    }
  }

  /** Squeezing spaces brings in no ignore-word initial. */
  lemma SquishNoInitials(s: string)
    requires forall i :: 0 <= i < |s| ==> !IsIgnoreInitial(s[i])
    ensures forall k :: 0 <= k < |Squish(s)| ==> !IsIgnoreInitial(Squish(s)[k])
  {
    forall k | 0 <= k < |Squish(s)|
      ensures !IsIgnoreInitial(Squish(s)[k])
    {
      SquishNoInitialAt(s, k);
    }
  }

  lemma SquishNoInitialAt(s: string, k: nat)
    requires forall i :: 0 <= i < |s| ==> !IsIgnoreInitial(s[i])
    requires k < |Squish(s)|
    ensures !IsIgnoreInitial(Squish(s)[k])
  {
    var x := Squish(s)[k];
    if !IsSpace(x) {
      SquishCharFrom(s, k);
      var i :| 0 <= i < |s| && s[i] == x;
    }
  }

  /** A non-space character of the squeezed text comes from the text. */
  lemma SquishCharFrom(s: string, k: nat)
    requires k < |Squish(s)| && !IsSpace(Squish(s)[k])
    ensures Squish(s)[k] in s
  {
    var c := Squish(s);
    NonSpaceKeeps(c, k);
    NonSpaceFrom(s, c[k]);
  }

  /** A word opening with an initial occurs nowhere in text without initials. */
  lemma NoInitialNoWord(c: string, w: string)
    requires forall k :: 0 <= k < |c| ==> !IsIgnoreInitial(c[k])
    requires w != [] && IsIgnoreInitial(w[0])
    ensures !Contains(c, w)
  {
    forall i | 0 <= i <= |c| - |w|
      ensures !OccursAt(c, w, i)
    {
      if i + |w| <= |c| {
        assert c[i..i + |w|][0] == c[i];
      }
    }
  }

  /** Text holding none of the ignore words' first syllables is not ignored. */
  lemma NotIgnoredByInitials(s: string)
    requires forall i :: 0 <= i < |s| ==> !IsIgnoreInitial(s[i])
    ensures !IsIgnored(s)
  {
    var c := Squish(s);
    SquishNoInitials(s);
    IgnoreWordsStart();
    forall j | 0 <= j < |IgnoreWords|
      ensures !Contains(c, IgnoreWords[j])
    {
      NoInitialNoWord(c, IgnoreWords[j]);
    }
    IgnoredFromExists(c, 0);
  }

  /** A listed skill, already clean, is its own match. */
  lemma MatchedOrListed(n: string)
    requires n in Skills && IsCleanName(n) && n != []
    ensures MatchedOr(n) == n
  {
    SquishKeeps(n);
    assert !AllSpace(n) by {
      assert !IsSpace(n[0]);
    }
  }

  /** A line without `의` names no set and type. */
  lemma NoTypeName(s: string)
    requires '의' !in s
    ensures ParseTypeName(s) == None
  {
    forall j | 0 <= j <= |s|
      ensures Link(s, j).None?
    {
      var q := SkipSpaces(s, j);
      if q < |s| {
        assert s[q] in s;
      }
    }
    forall i | 0 <= i < |s|
      ensures TypeMatchAt(s, i).None?
    {
      if IsHangul(s[i]) {
        assert GreedyEnd(s, i, HangulEnd(s, i)).None?;
      }
    }
  }

  /** A clean, usable name that is its own match. */
  predicate ListedName(n: string) {
    IsCleanName(n) && Usable(n) && MatchedOr(n) == n
  }

  /** 격파쇄 and 타격쇄 are clean, usable, listed names. */
  lemma ExampleName(n: string)
    requires n == "격파쇄" || n == "타격쇄"
    ensures ListedName(n)
  {
    ExampleClean(n);
    NotIgnoredByInitials(n);
    ExampleListed(n);
    MatchedOrListed(n);
  }

  lemma ExampleClean(n: string)
    requires n == "격파쇄" || n == "타격쇄"
    ensures IsCleanName(n)
  {
  }

  lemma ExampleListed(n: string)
    requires n == "격파쇄" || n == "타격쇄"
    ensures n in Skills
  {
    assert Skills[1] == "격파쇄" && Skills[5] == "타격쇄";
  }

  lemma ExampleMarkerNotIgnored(line: string)
    requires line == "격파쇄 Lv +2"
    ensures !IsIgnored(line)
  {
    NotIgnoredByInitials(line);
  }

  lemma ExamplePlusNotIgnored(line: string)
    requires line == "격파쇄 +2"
    ensures !IsIgnored(line)
  {
    NotIgnoredByInitials(line);
  }

  /** The marker example line, spelled out. */
  lemma ExampleMarkerText(line: string, n: string, d: string, v: string)
    requires line == "격파쇄 Lv +2" && n == "격파쇄" && d == "2" && v == "+2"
    ensures line == n + " Lv +" + d + [] && v == "+" + d && d != [] && AllDigits(d)
  {
    var a := n + " Lv +" + d;
    assert |a| == |line| == 9;
    forall i | 0 <= i < 9
      ensures a[i] == line[i]
    {
    }
    assert |v| == 2 && v[0] == '+' && v[1] == '2';
  }

  /** The plus example line, spelled out. */
  lemma ExamplePlusText(line: string, n: string, d: string, v: string)
    requires line == "격파쇄 +2" && n == "격파쇄" && d == "2" && v == "+2"
    ensures line == n + " +" + d && v == "+" + d && d != [] && AllDigits(d)
  {
    var a := n + " +" + d;
    assert |a| == |line| == 6;
    forall i | 0 <= i < 6
      ensures a[i] == line[i]
    {
    }
    assert |v| == 2 && v[0] == '+' && v[1] == '2';
  }

  /** A marker line naming a listed skill at a level, with any tail that does not continue the digits, parses to that entry. */
  lemma MarkerLineListed(line: string, n: string, d: string, rest: string)
    requires ListedName(n) && d != [] && AllDigits(d)
    requires rest == [] || (!IsDigit(rest[0]) && !IsSpace(rest[|rest| - 1]))
    requires line == n + " Lv +" + d + rest && !IsIgnored(line)
    ensures ParseSkillLine(line) == Some(Skill(n, "+" + d))
  {
    MarkerLineEntry(line, n, d, rest);
    MarkerLineStripped(line, n, d, rest);
    ParseFirstPattern(line, Skill(n, "+" + d));
  }

  /** A plus line naming a listed skill at a level parses to that entry. */
  lemma PlusLineListed(line: string, n: string, d: string)
    requires ListedName(n) && d != [] && AllDigits(d)
    requires line == n + " +" + d && !IsIgnored(line)
    ensures ParseSkillLine(line) == Some(Skill(n, "+" + d))
  {
    PlusLineEntry(line, n, d);
    PlusLineStripped(line, n, d);
    ParseSecondPattern(line, Skill(n, "+" + d));
  }

  /** `격파쇄 Lv +2` is 격파쇄 at `+2`. */
  lemma MarkerLineExample(line: string)
    requires line == "격파쇄 Lv +2"
    ensures ParseSkillLine(line) == Some(Skill("격파쇄", "+2"))
  {
    var n, d, v := "격파쇄", "2", "+2";
    ExampleName(n);
    ExampleMarkerNotIgnored(line);
    ExampleMarkerText(line, n, d, v);
    MarkerLineListed(line, n, d, []);
  }

  /** `격파쇄 +2`, without the marker, falls back to the second pattern with the same entry. */
  lemma PlusLineExample(line: string)
    requires line == "격파쇄 +2"
    ensures ParseSkillLine(line) == Some(Skill("격파쇄", "+2"))
  {
    var n, d, v := "격파쇄", "2", "+2";
    ExampleName(n);
    ExamplePlusNotIgnored(line);
    ExamplePlusText(line, n, d, v);
    PlusLineListed(line, n, d);
  }

  /** An ignore word on its own is ignored. */
  lemma IgnoreWordIgnored(j: nat)
    requires j < |IgnoreWords| && Squished(IgnoreWords[j])
    ensures IsIgnored(IgnoreWords[j])
  {
    var t := IgnoreWords[j];
    SquishKeeps(t);
    assert t[0..|t|] == t;
    assert OccursAt(t, IgnoreWords[j], 0);
    IgnoredFromExists(t, 0);
  }

  /** `장착 효과` is the third ignore word. */
  lemma ExampleIgnoreWord(line: string)
    requires line == "장착 효과"
    ensures IgnoreWords[2] == line
  {
  }

  /** The third ignore word, `장착 효과`, has one inner space. */
  lemma ThirdWordSquished()
    ensures Squished(IgnoreWords[2])
  {
    var w := IgnoreWords[2];
    assert w == "장착 효과";
    assert Squished(w);
  }

  /** A stripped line holding an ignore word gives nothing. */
  lemma IgnoredLine(line: string)
    requires Strip(line) == line && IsIgnored(line)
    ensures ParseSkillLine(line) == None
  {
  }

  /** The third ignore word, as a line on its own, is stripped and ignored. */
  lemma ThirdWordIgnored(line: string)
    requires IgnoreWords[2] == line
    ensures Strip(line) == line && IsIgnored(line)
  {
    ThirdWordSquished();
    StripKeeps(line);
    IgnoreWordIgnored(2);
  }

  /** `장착 효과` holds an ignore word and gives nothing. */
  lemma IgnoredLineExample(line: string)
    requires line == "장착 효과"
    ensures ParseSkillLine(line) == None
  {
    ExampleIgnoreWord(line);
    ThirdWordIgnored(line);
    IgnoredLine(line);
  }
}

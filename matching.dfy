/**
 * The skill-name matching cascade shared by `match_skill` (run-test.py) and
 * `matchSkill` (js/skill-data.js): collapse and trim the OCR text, then try an
 * exact hit, then the first candidate that contains or is contained in the
 * text, then the candidate at the smallest edit distance provided that
 * distance is at most half the longer of the two lengths.
 */
module Matching {
  import opened Wrappers
  import opened Text
  import opened EditDistance

  /** One string occurs inside the other (`a in b or b in a`, `a.includes(b) || b.includes(a)`). */
  predicate Overlaps(c: string, s: string) {
    Contains(c, s) || Contains(s, c)
  }

  /** Edit distance small enough to accept: `dist <= max(len) * 0.5`, stated without reals. */
  predicate CloseEnough(c: string, s: string) {
    2 * Levenshtein(c, s) <= Max(|c|, |s|)
  }

  /** Index of the first candidate that overlaps `c` (`Array.prototype.find` on the substring test). */
  function FirstOverlap(c: string, list: seq<string>): (r: Option<nat>)
    ensures r.Some? ==> r.value < |list| && Overlaps(c, list[r.value])
    ensures r.Some? ==> forall k :: 0 <= k < r.value ==> !Overlaps(c, list[k])
    ensures r.None? ==> forall k :: 0 <= k < |list| ==> !Overlaps(c, list[k])
  {
    if |list| == 0 then None
    else if Overlaps(c, list[0]) then Some(0)
    else match FirstOverlap(c, list[1..])
      case None => None
      case Some(k) => Some(k + 1)
  }

  /**
   * Index of the candidate the distance loop keeps: the first one at the
   * smallest distance, since the loop only replaces its best on a strict
   * improvement.
   */
  function Nearest(c: string, list: seq<string>): (k: nat)
    requires |list| > 0
    ensures k < |list|
    decreases |list|
  {
    if |list| == 1 then 0
    else
      var k := Nearest(c, list[..|list| - 1]);
      if Levenshtein(c, list[|list| - 1]) < Levenshtein(c, list[k]) then |list| - 1 else k
  }

  /** The kept candidate is at the least distance, and every earlier one is strictly farther. */
  lemma {:induction false} NearestLeast(c: string, list: seq<string>)
    requires |list| > 0
    ensures var k := Nearest(c, list);
      && (forall i :: 0 <= i < |list| ==> Levenshtein(c, list[k]) <= Levenshtein(c, list[i]))
      && (forall i :: 0 <= i < k ==> Levenshtein(c, list[k]) < Levenshtein(c, list[i]))
    decreases |list|
  {
    if |list| > 1 {
      var init := list[..|list| - 1];
      NearestLeast(c, init);
      assert forall i :: 0 <= i < |init| ==> init[i] == list[i];
    }
  }

  /** The last stage: the nearest candidate, accepted when it is non-empty and close enough. */
  function ByDistance(c: string, list: seq<string>): (r: Option<string>)
    ensures r.Some? ==> r.value in list && r.value != "" && CloseEnough(c, r.value)
    ensures r.Some? ==> forall s :: s in list ==> Levenshtein(c, r.value) <= Levenshtein(c, s)
    ensures r.None? && |list| > 0 ==> var b := list[Nearest(c, list)]; b == "" || !CloseEnough(c, b)
  {
    if |list| == 0 then None
    else
      var best := list[Nearest(c, list)];
      NearestLeast(c, list);
      if best != "" && CloseEnough(c, best) then Some(best) else None
  }

  /**
   * The cascade on text that is already collapsed and trimmed. A first
   * overlapping candidate that is the empty string is falsy in JavaScript, so
   * the cascade then falls through to the distance stage.
   */
  function Pick(c: string, list: seq<string>): (r: Option<string>)
    ensures r.Some? ==> r.value in list && r.value != ""
    ensures r.Some? ==> Overlaps(c, r.value) || CloseEnough(c, r.value)
    ensures c == [] ==> r.None?
    ensures c != [] && c in list ==> r == Some(c)
  {
    if c == [] then None
    else if c in list then assert OccursAt(c, c, 0); Some(c)
    else match FirstOverlap(c, list)
      case Some(k) => if list[k] != "" then Some(list[k]) else ByDistance(c, list)
      case None => ByDistance(c, list)
  }

  /** The whole cascade: collapse whitespace runs, trim, then pick. */
  function Cascade(text: string, list: seq<string>): (r: Option<string>)
    ensures r.Some? ==> r.value in list && r.value != ""
    ensures r.Some? ==> Overlaps(Squish(text), r.value) || CloseEnough(Squish(text), r.value)
    ensures AllSpace(text) <==> Squish(text) == []
    ensures AllSpace(text) ==> r.None?
    ensures !AllSpace(text) && Squish(text) in list ==> r == Some(Squish(text))
  {
    Pick(Squish(text), list)
  }

  /**
   * When no candidate is empty, an overlapping candidate is always found, and
   * it is the first overlapping one in list order.
   */
  lemma CascadeFirstOverlap(text: string, list: seq<string>, k: nat)
    requires "" !in list
    requires !AllSpace(text) && Squish(text) !in list
    requires k < |list| && Overlaps(Squish(text), list[k])
    requires forall i :: 0 <= i < k ==> !Overlaps(Squish(text), list[i])
    ensures Cascade(text, list) == Some(list[k])
  {
    var r := FirstOverlap(Squish(text), list);
    assert r.Some?;
    assert r.value == k;
  }

  /**
   * When nothing matches exactly or by substring, the answer is the first
   * candidate at the least distance, and only if it is close enough.
   */
  lemma CascadeNearest(text: string, list: seq<string>)
    requires "" !in list && |list| > 0
    requires !AllSpace(text) && Squish(text) !in list
    requires forall s :: s in list ==> !Overlaps(Squish(text), s)
    ensures var c := Squish(text); var b := list[Nearest(c, list)];
      Cascade(text, list) == if CloseEnough(c, b) then Some(b) else None
  {
    var c := Squish(text);
    NoOverlap(c, list);
    assert Cascade(text, list) == Pick(c, list) == ByDistance(c, list);
  }

  /** No candidate overlapping means the substring stage finds nothing. */
  lemma NoOverlap(c: string, list: seq<string>)
    requires forall s :: s in list ==> !Overlaps(c, s)
    ensures FirstOverlap(c, list).None?
  {
    forall k | 0 <= k < |list|
      ensures !Overlaps(c, list[k])
    {
      assert list[k] in list;
    }
  }

  /** The distance stage: the loop, then the acceptance test on the candidate it kept. */
  method MatchByDistance(c: string, list: seq<string>) returns (r: Option<string>)
    ensures r == ByDistance(c, list)
  {
    var best, bestDist := NearestScan(c, list);
    if best.Some? && best.value != "" && 2 * bestDist <= Max(|c|, |best.value|) {
      r := best;
    } else {
      r := None;
    }
  }

  /** The distance loop: keeps the first candidate with the strictly smallest distance. */
  method NearestScan(c: string, list: seq<string>) returns (best: Option<string>, bestDist: nat)
    ensures best.None? <==> list == []
    ensures best.Some? ==> best.value == list[Nearest(c, list)] && bestDist == Levenshtein(c, best.value)
  {
    best := None;
    bestDist := 0;
    for j := 0 to |list|
      invariant j == 0 <==> best.None?
      invariant best.Some? ==> best.value == list[Nearest(c, list[..j])]
      invariant best.Some? ==> bestDist == Levenshtein(c, best.value)
    {
      NearestSnoc(c, list[..j], list[j]);
      assert list[..j + 1] == list[..j] + [list[j]];
      var d := LevenshteinTable(c, list[j]);
      if best.None? || d < bestDist {
        best := Some(list[j]);
        bestDist := d;
      }
    }
    assert list[..|list|] == list;
  }

  /** One more candidate: it becomes the nearest only when strictly closer than the nearest so far. */
  lemma NearestSnoc(c: string, xs: seq<string>, x: string)
    ensures var ys := xs + [x];
      Nearest(c, ys) == if |xs| == 0 then 0
        else if Levenshtein(c, x) < Levenshtein(c, xs[Nearest(c, xs)]) then |xs| else Nearest(c, xs)
    ensures |xs| > 0 ==> (xs + [x])[Nearest(c, xs)] == xs[Nearest(c, xs)]
  {
    assert (xs + [x])[..|xs|] == xs;
  }

  /** `match_skill` / the search part of `matchSkill`: three scans over the candidates. */
  method MatchIn(text: string, list: seq<string>) returns (r: Option<string>)
    ensures r == Cascade(text, list)
  {
    var c := Squish(text);
    r := PickScan(c, list);
  }

  /** The three scans of the cascade over already cleaned text. */
  method PickScan(c: string, list: seq<string>) returns (r: Option<string>)
    ensures r == Pick(c, list)
  {
    if c == [] {
      return None;
    }
    for i := 0 to |list|
      invariant forall k :: 0 <= k < i ==> list[k] != c
    {
      if list[i] == c {
        return Some(c);
      }
    }
    var i := 0;
    while i < |list|
      invariant 0 <= i <= |list|
      invariant forall k :: 0 <= k < i ==> !Overlaps(c, list[k])
    {
      if Overlaps(c, list[i]) {
        var f := FirstOverlap(c, list);
        assert f.Some? && f.value == i;
        if list[i] != "" {
          return Some(list[i]);
        }
        break;
      }
      i := i + 1;
    }
    r := MatchByDistance(c, list);
  }
}

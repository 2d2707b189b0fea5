/**
 * The passes of run-test.py that read the raw OCR text directly:
 * `find_skills_in_raw` (skill names found anywhere, longest first) and
 * `collect_levels` (every `Lv N` and free-standing `+N`, in `re.finditer`
 * order).
 */
module RawSearch {
  import opened Wrappers
  import opened Text
  import opened SkillParser

  // ------------------------------------------------- sorted(key=len, reverse=True)

  /** Lengths never increase along `xs`. */
  predicate LongestFirst(xs: seq<string>) {
    forall i, j :: 0 <= i < j < |xs| ==> |xs[i]| >= |xs[j]|
  }

  /** Inserts `x` after every element at least as long, so equal lengths keep their order. */
  function InsertByLength(x: string, xs: seq<string>): seq<string>
  {
    if |xs| == 0 then [x]
    else if |xs[0]| >= |x| then [xs[0]] + InsertByLength(x, xs[1..])
    else [x] + xs
  }

  /**
   * `sorted(xs, key=len, reverse=True)`: a stable sort on decreasing length,
   * built by inserting each element, in order, after the longer-or-equal ones.
   */
  function SortByLengthDesc(xs: seq<string>): seq<string>
  {
    if |xs| == 0 then []
    else InsertByLength(xs[|xs| - 1], SortByLengthDesc(xs[..|xs| - 1]))
  }

  /** Insertion adds exactly one copy of `x` and nothing else. */
  lemma {:induction false} InsertByLengthPermutes(x: string, xs: seq<string>)
    ensures multiset(InsertByLength(x, xs)) == multiset(xs) + multiset{x}
  {
    if |xs| > 0 {
      assert xs == [xs[0]] + xs[1..];
      if |xs[0]| >= |x| {
        InsertByLengthPermutes(x, xs[1..]);
      }
    }
  }

  /** Inserting into a longest-first list keeps it longest first. */
  lemma {:induction false} InsertByLengthSorted(x: string, xs: seq<string>)
    requires LongestFirst(xs)
    ensures LongestFirst(InsertByLength(x, xs))
  {
    if |xs| > 0 && |xs[0]| >= |x| {
      SuffixLongestFirst(xs);
      InsertByLengthSorted(x, xs[1..]);
      InsertByLengthPermutes(x, xs[1..]);
      var rest := InsertByLength(x, xs[1..]);
      forall k | 0 <= k < |rest|
        ensures |xs[0]| >= |rest[k]|
      {
        assert rest[k] in multiset(rest);
        if rest[k] != x {
          assert rest[k] in multiset(xs[1..]);
          var j :| 0 <= j < |xs[1..]| && xs[1..][j] == rest[k];
          assert xs[j + 1] == rest[k];
        }
      }
      assert InsertByLength(x, xs) == [xs[0]] + rest;
    }
  }

  /**
   * The sort yields a longest-first rearrangement of its input in which
   * elements of equal length keep their relative order.
   */
  lemma {:induction false} SortByLengthDescFacts(xs: seq<string>)
    ensures LongestFirst(SortByLengthDesc(xs))
    ensures multiset(SortByLengthDesc(xs)) == multiset(xs)
    ensures forall n :: OfLength(SortByLengthDesc(xs), n) == OfLength(xs, n)
    decreases |xs|, 1
  {
    SortLongestFirst(xs);
    if |xs| > 0 {
      SortByLengthDescFacts(xs[..|xs| - 1]);
      InsertByLengthPermutes(xs[|xs| - 1], SortByLengthDesc(xs[..|xs| - 1]));
      assert xs == xs[..|xs| - 1] + [xs[|xs| - 1]];
    }
    forall n: int ensures OfLength(SortByLengthDesc(xs), n) == OfLength(xs, n) {
      SortStable(xs, n);
    }
  }

  lemma {:induction false} SortLongestFirst(xs: seq<string>)
    ensures LongestFirst(SortByLengthDesc(xs))
  {
    if |xs| > 0 {
      SortLongestFirst(xs[..|xs| - 1]);
      InsertByLengthSorted(xs[|xs| - 1], SortByLengthDesc(xs[..|xs| - 1]));
    }
  }

  /** The elements of `xs` that have length `n`, in order. */
  function OfLength(xs: seq<string>, n: int): seq<string>
  {
    if xs == [] then [] else (if |xs[0]| == n then [xs[0]] else []) + OfLength(xs[1..], n)
  }

  lemma {:induction false} OfLengthAppend(a: seq<string>, b: seq<string>, n: int)
    ensures OfLength(a + b, n) == OfLength(a, n) + OfLength(b, n)
  {
    if a == [] {
      assert a + b == b;
    } else {
      assert (a + b)[0] == a[0] && (a + b)[1..] == a[1..] + b;
      OfLengthAppend(a[1..], b, n);
    }
  }

  /** A longest-first list whose head is shorter than `n` has nothing of length `n`. */
  lemma {:induction false} OfLengthShorter(xs: seq<string>, n: int)
    requires LongestFirst(xs) && xs != [] && |xs[0]| < n
    ensures OfLength(xs, n) == []
  {
    if |xs| > 1 {
      SuffixLongestFirst(xs);
      assert |xs[1]| <= |xs[0]|;
      OfLengthShorter(xs[1..], n);
    }
  }

  /** Insertion puts `x` after every element of its own length. */
  lemma {:induction false} InsertByLengthStable(x: string, xs: seq<string>, n: int)
    requires LongestFirst(xs)
    ensures OfLength(InsertByLength(x, xs), n) == OfLength(xs, n) + (if |x| == n then [x] else [])
  {
    if |xs| > 0 {
      if |xs[0]| >= |x| {
        SuffixLongestFirst(xs);
        InsertByLengthStable(x, xs[1..], n);
        assert InsertByLength(x, xs)[1..] == InsertByLength(x, xs[1..]);
      } else {
        assert ([x] + xs)[1..] == xs;
        if |x| == n {
          OfLengthShorter(xs, n);
        }
      }
    }
  }

  lemma {:induction false} SortStable(xs: seq<string>, n: int)
    ensures OfLength(SortByLengthDesc(xs), n) == OfLength(xs, n)
    decreases |xs|, 0
  {
    if |xs| > 0 {
      var init := xs[..|xs| - 1];
      var x := xs[|xs| - 1];
      SortStable(init, n);
      SortLongestFirst(init);
      InsertByLengthStable(x, SortByLengthDesc(init), n);
      assert xs == init + [x];
      OfLengthAppend(init, [x], n);
      assert OfLength([x], n) == (if |x| == n then [x] else []) + OfLength([], n);
    }
  }

  // ------------------------------------------------------ find_skills_in_raw

  /**
   * The names `find_skills_in_raw` collects while walking `order`: names
   * already taken are skipped, the walk stops once `room` reaches zero, and a
   * name is taken when it occurs in `raw`.
   */
  function FoundFrom(order: seq<string>, raw: string, taken: set<string>, room: int): seq<string>
    decreases |order|
  {
    if |order| == 0 then []
    else if order[0] in taken then FoundFrom(order[1..], raw, taken, room)
    else if room <= 0 then []
    else if Contains(raw, order[0]) then [order[0]] + FoundFrom(order[1..], raw, taken + {order[0]}, room - 1)
    else FoundFrom(order[1..], raw, taken, room)
  }

  /**
   * What the walk collects: names from `order` that occur in `raw`, none taken
   * before and none twice, at most `room` of them, and every eligible name
   * unless the room ran out; the walk keeps the order, and with it the
   * order's longest-first property.
   */
  lemma FoundFromFacts(order: seq<string>, raw: string, taken: set<string>, room: int)
    ensures var r := FoundFrom(order, raw, taken, room);
      && (forall x :: x in r ==> x in order && Contains(raw, x) && x !in taken)
      && (forall i, j :: 0 <= i < j < |r| ==> r[i] != r[j])
      && |r| <= (if room < 0 then 0 else room)
      && (|r| < room ==> forall x :: x in order && Contains(raw, x) && x !in taken ==> x in r)
      && (LongestFirst(order) ==> LongestFirst(r))
      && Subsequence(r, order)
  {
    FoundFromSubsequence(order, raw, taken, room);
    FoundFromSound(order, raw, taken, room);
    FoundFromComplete(order, raw, taken, room);
    if LongestFirst(order) {
      FoundFromSorted(order, raw, taken, room);
    }
  }

  /** The walk keeps the order it is given. */
  lemma {:induction false} FoundFromSubsequence(order: seq<string>, raw: string, taken: set<string>, room: int)
    ensures Subsequence(FoundFrom(order, raw, taken, room), order)
    decreases |order|
  {
    if |order| > 0 {
      if order[0] in taken || (room > 0 && !Contains(raw, order[0])) {
        FoundFromSubsequence(order[1..], raw, taken, room);
      } else if room > 0 {
        FoundFromSubsequence(order[1..], raw, taken + {order[0]}, room - 1);
        assert ([order[0]] + FoundFrom(order[1..], raw, taken + {order[0]}, room - 1))[1..]
            == FoundFrom(order[1..], raw, taken + {order[0]}, room - 1);
      }
    }
  }

  /** The walk takes only eligible names, each once, and no more than `room`. */
  lemma {:induction false} FoundFromSound(order: seq<string>, raw: string, taken: set<string>, room: int)
    ensures var r := FoundFrom(order, raw, taken, room);
      && (forall x :: x in r ==> x in order && Contains(raw, x) && x !in taken)
      && (forall i, j :: 0 <= i < j < |r| ==> r[i] != r[j])
      && |r| <= (if room < 0 then 0 else room)
    decreases |order|
  {
    if |order| > 0 && (order[0] in taken || room > 0) {
      var taken' := if order[0] !in taken && Contains(raw, order[0]) then taken + {order[0]} else taken;
      var room' := if order[0] !in taken && Contains(raw, order[0]) then room - 1 else room;
      FoundFromSound(order[1..], raw, taken', room');
      assert order == [order[0]] + order[1..];
    }
  }

  /** Unless the room runs out, the walk takes every eligible name. */
  lemma {:induction false} FoundFromComplete(order: seq<string>, raw: string, taken: set<string>, room: int)
    ensures var r := FoundFrom(order, raw, taken, room);
      |r| < room ==> forall x :: x in order && Contains(raw, x) && x !in taken ==> x in r
    decreases |order|
  {
    if |order| > 0 && (order[0] in taken || room > 0) {
      var taken' := if order[0] !in taken && Contains(raw, order[0]) then taken + {order[0]} else taken;
      var room' := if order[0] !in taken && Contains(raw, order[0]) then room - 1 else room;
      FoundFromComplete(order[1..], raw, taken', room');
      assert order == [order[0]] + order[1..];
    }
  }

  /** A longest-first order gives a longest-first result. */
  lemma {:induction false} FoundFromSorted(order: seq<string>, raw: string, taken: set<string>, room: int)
    requires LongestFirst(order)
    ensures LongestFirst(FoundFrom(order, raw, taken, room))
    decreases |order|
  {
    if |order| > 0 && (order[0] in taken || room > 0) {
      var taken' := if order[0] !in taken && Contains(raw, order[0]) then taken + {order[0]} else taken;
      var room' := if order[0] !in taken && Contains(raw, order[0]) then room - 1 else room;
      SuffixLongestFirst(order);
      FoundFromSorted(order[1..], raw, taken', room');
      FoundFromSound(order[1..], raw, taken', room');
      var rest := FoundFrom(order[1..], raw, taken', room');
      forall x | x in rest
        ensures |order[0]| >= |x|
      {
        var j :| 0 <= j < |order[1..]| && order[1..][j] == x;
        assert order[j + 1] == x;
      }
    }
  }

  lemma SuffixLongestFirst(order: seq<string>)
    requires |order| > 0
    ensures LongestFirst(order) ==> LongestFirst(order[1..])
  {
    if LongestFirst(order) {
      forall i, j | 0 <= i < j < |order[1..]|
        ensures |order[1..][i]| >= |order[1..][j]|
      {
        assert order[1..][i] == order[i + 1] && order[1..][j] == order[j + 1];
      }
    }
  }

  function Names(skills: seq<Skill>): (r: set<string>)
    ensures forall s :: s in skills ==> s.name in r
    ensures forall n :: n in r ==> exists s :: s in skills && s.name == n
  {
    set s | s in skills :: s.name
  }

  /** One entry with an empty level per name. */
  function Entries(names: seq<string>): (r: seq<Skill>)
    ensures |r| == |names| && forall k :: 0 <= k < |r| ==> r[k] == Skill(names[k], "")
  {
    if names == [] then [] else [Skill(names[0], "")] + Entries(names[1..])
  }

  /** The loop of `find_skills_in_raw` over the candidates in `order`. */
  method CollectFound(order: seq<string>, raw: string, existing: seq<Skill>) returns (found: seq<Skill>)
    ensures found == Entries(FoundFrom(order, raw, Names(existing), 4 - |existing|))
    ensures forall k :: 0 <= k < |found| ==>
      found[k].level == "" && found[k].name in order && Contains(raw, found[k].name) && found[k].name !in Names(existing)
    ensures forall i, j :: 0 <= i < j < |found| ==> found[i].name != found[j].name
    ensures LongestFirst(order) ==> forall i, j :: 0 <= i < j < |found| ==> |found[i].name| >= |found[j].name|
    ensures |found| + |existing| <= 4 || found == []
  {
    found := WalkOrder(order, raw, Names(existing), 4 - |existing|);
    FoundEntries(order, raw, existing, found);
  }

  /**
   * The loop itself: skip names already taken, stop once `room` entries are
   * found, take a name that occurs in `raw`.
   */
  method WalkOrder(order: seq<string>, raw: string, taken: set<string>, room: int) returns (found: seq<Skill>)
    ensures found == Entries(FoundFrom(order, raw, taken, room))
  {
    var existingNames := taken;
    found := [];
    ghost var names: seq<string> := [];
    var i := 0;
    while i < |order|
      invariant 0 <= i <= |order|
      invariant found == Entries(names) && |found| == |names|
      invariant names + FoundFrom(order[i..], raw, existingNames, room - |found|)
             == FoundFrom(order, raw, taken, room)
    {
      var skill := order[i];
      FoundFromStep(order, i, raw, existingNames, room - |found|);
      if skill in existingNames {
        i := i + 1;
        continue;
      }
      if |found| >= room {
        break;
      }
      if Contains(raw, skill) {
        EntriesSnoc(names, skill);
        found := found + [Skill(skill, "")];
        names := names + [skill];
        existingNames := existingNames + {skill};
      }
      i := i + 1;
    }
    assert names + FoundFrom(order[i..], raw, existingNames, room - |found|) == names;
  }

  lemma {:induction false} EntriesSnoc(names: seq<string>, x: string)
    ensures Entries(names + [x]) == Entries(names) + [Skill(x, "")]
    decreases |names|
  {
    if names == [] {
      assert [x][1..] == [];
    } else {
      assert (names + [x])[1..] == names[1..] + [x];
      EntriesSnoc(names[1..], x);
    }
  }

  /** The walk from position `i` unfolded once. */
  lemma FoundFromStep(order: seq<string>, i: nat, raw: string, taken: set<string>, room: int)
    requires i < |order|
    ensures FoundFrom(order[i..], raw, taken, room) ==
      if order[i] in taken then FoundFrom(order[i + 1..], raw, taken, room)
      else if room <= 0 then []
      else if Contains(raw, order[i]) then [order[i]] + FoundFrom(order[i + 1..], raw, taken + {order[i]}, room - 1)
      else FoundFrom(order[i + 1..], raw, taken, room)
  {
    assert order[i..][0] == order[i] && order[i..][1..] == order[i + 1..];
  }

  /** The entries built from the walk's names inherit its properties. */
  lemma FoundEntries(order: seq<string>, raw: string, existing: seq<Skill>, found: seq<Skill>)
    requires |found| == |FoundFrom(order, raw, Names(existing), 4 - |existing|)|
    requires forall k :: 0 <= k < |found| ==>
      found[k] == Skill(FoundFrom(order, raw, Names(existing), 4 - |existing|)[k], "")
    ensures forall k :: 0 <= k < |found| ==>
      found[k].level == "" && found[k].name in order && Contains(raw, found[k].name) && found[k].name !in Names(existing)
    ensures forall i, j :: 0 <= i < j < |found| ==> found[i].name != found[j].name
    ensures LongestFirst(order) ==> forall i, j :: 0 <= i < j < |found| ==> |found[i].name| >= |found[j].name|
    ensures |found| + |existing| <= 4 || found == []
  {
    var r := FoundFrom(order, raw, Names(existing), 4 - |existing|);
    FoundFromFacts(order, raw, Names(existing), 4 - |existing|);
    forall k | 0 <= k < |found|
      ensures found[k].name in r
    {
      assert found[k].name == r[k];
    }
  }

  /**
   * The entries `find_skills_in_raw(raw, existing)` returns: the walk over the
   * skills, longest first, each with an empty level.
   */
  function RawFinds(raw: string, existing: seq<Skill>): seq<Skill> {
    Entries(FoundFrom(SortByLengthDesc(Skills), raw, Names(existing), 4 - |existing|))
  }

  /**
   * `find_skills_in_raw(raw, existing)`: entries with an empty level for the
   * skills, longest first, that occur in `raw` and are not named yet, until
   * found and existing entries together reach four.
   */
  method FindSkillsInRaw(raw: string, existing: seq<Skill>) returns (found: seq<Skill>)
    ensures found == RawFinds(raw, existing)
    ensures forall k :: 0 <= k < |found| ==>
      found[k].level == "" && found[k].name in Skills && Contains(raw, found[k].name) && found[k].name !in Names(existing)
    ensures forall i, j :: 0 <= i < j < |found| ==> found[i].name != found[j].name && |found[i].name| >= |found[j].name|
    ensures |found| + |existing| <= 4 || found == []
  {
    found := CollectFound(SortByLengthDesc(Skills), raw, existing);
    RawFindsFacts(raw, existing);
  }

  /**
   * The entries `find_skills_in_raw` returns: listed skills that occur in the
   * text, not named yet, distinct, longest first, with an empty level, and no
   * more than the room four entries leave.
   */
  lemma RawFindsFacts(raw: string, existing: seq<Skill>)
    ensures var found := RawFinds(raw, existing);
      && (forall k :: 0 <= k < |found| ==>
            found[k].level == "" && found[k].name in Skills && Contains(raw, found[k].name) && found[k].name !in Names(existing))
      && (forall i, j :: 0 <= i < j < |found| ==> found[i].name != found[j].name && |found[i].name| >= |found[j].name|)
      && (|found| + |existing| <= 4 || found == [])
  {
    var order := SortByLengthDesc(Skills);
    SortByLengthDescFacts(Skills);
    var found := RawFinds(raw, existing);
    FoundEntries(order, raw, existing, found);
    forall k | 0 <= k < |found|
      ensures found[k].name in Skills
    {
      SortedMember(Skills, found[k].name);
    }
  }

  lemma SortedMember(xs: seq<string>, x: string)
    requires x in SortByLengthDesc(xs)
    ensures x in xs
  {
    SortByLengthDescFacts(xs);
    assert x in multiset(SortByLengthDesc(xs));
  }

  // ---------------------------------------------------------- collect_levels

  /**
   * The levels `re.finditer(r'(?:Lv|LV|lv|Iv)\s*\+?\s*(\d+)', s)` yields from
   * position `from` on: the leftmost marker followed by a level, then the
   * search resumes after its digits.
   */
  function MarkerLevels(s: string, from: nat): (r: seq<string>)
    requires from <= |s|
    ensures forall l :: l in r ==> IsLevel(l)
    decreases |s| - from
  {
    if from == |s| then []
    else match MarkerMatch(s, from)
      case Some((a, b)) =>
        LevelOfDigits(s[a..b]);
        ["+" + s[a..b]] + MarkerLevels(s, b)
      case None => MarkerLevels(s, from + 1)
  }

  /** A match of the marker pattern starting at `p`: the digit span of its group. */
  function MarkerMatch(s: string, p: nat): (r: Option<(nat, nat)>)
    requires p <= |s|
    ensures r.Some? ==> IsMarker(s, p) && p + 2 <= r.value.0 < r.value.1 <= |s|
    ensures r.Some? ==> DigitsBetween(s, r.value.0, r.value.1)
    ensures r.Some? ==> TailAt(WithMarker, s, p, r.value.0, r.value.1)
  {
    if IsMarker(s, p) then Tail(WithMarker, s, p) else None
  }

  /**
   * Completeness of the marker scanner: wherever the marker pattern matches
   * at `p` with its digit group starting at `a`, the scanner reports that
   * group, extended greedily to the end of the digit run.
   */
  lemma MarkerMatchComplete(s: string, p: nat, a: nat, b: nat)
    requires p <= |s| && IsMarker(s, p) && TailAt(WithMarker, s, p, a, b)
    ensures a <= |s| && MarkerMatch(s, p) == Some((a, DigitsEnd(s, a)))
  {
    TailComplete(WithMarker, s, p, a, b);
    var (a', b') := Tail(WithMarker, s, p).value;
    DigitsEndUnique(s, a', b');
  }

  /** `s[k]` may occur in a marker match after its two marker letters. */
  predicate MarkerBodyAt(s: string, k: nat) {
    k < |s| && (IsSpace(s[k]) || s[k] == '+' || IsDigit(s[k]))
  }

  /** After its marker letters, a marker match spans only whitespace, `+` and digits. */
  lemma MarkerMatchBody(s: string, p: nat)
    requires p <= |s| && MarkerMatch(s, p).Some?
    ensures forall k :: p + 2 <= k < MarkerMatch(s, p).value.1 ==> MarkerBodyAt(s, k)
  {
    var (a, b) := MarkerMatch(s, p).value;
    var m :| p <= m && m + 2 <= a && SpacesBetween(s, p, m) && IsMarker(s, m) && Gap(s, m + 2, a);
    assert !SpaceAt(s, p);
    assert m == p;
    forall k | p + 2 <= k < b
      ensures MarkerBodyAt(s, k)
    {
      if k < a && !SpacesBetween(s, p + 2, a) {
        var g :| p + 2 <= g < a && s[g] == '+' && SpacesBetween(s, p + 2, g) && SpacesBetween(s, g + 1, a);
        assert k == g || SpaceAt(s, k);
      } else if k < a {
        assert SpaceAt(s, k);
      }
    }
  }

  /**
   * Marker matches cannot overlap: a match that starts before another
   * marker ends at that marker at the latest.
   */
  lemma MarkerMatchBefore(s: string, from: nat, p: nat)
    requires from < p <= |s| && IsMarker(s, p) && MarkerMatch(s, from).Some?
    ensures MarkerMatch(s, from).value.1 <= p
  {
    MarkerMatchBody(s, from);
    assert !MarkerBodyAt(s, p);
    assert p != from + 1;
  }

  /** One step of the marker walk. */
  lemma MarkerLevelsAt(s: string, from: nat)
    requires from < |s|
    ensures MarkerMatch(s, from).None? ==> MarkerLevels(s, from) == MarkerLevels(s, from + 1)
    ensures MarkerMatch(s, from).Some? ==>
      var (a, b) := MarkerMatch(s, from).value;
      MarkerLevels(s, from) == ["+" + s[a..b]] + MarkerLevels(s, b)
  {
  }

  /**
   * `re.finditer` misses no marker level: every position where the marker
   * pattern matches, at or after `from`, contributes its level.
   */
  lemma {:induction false} MarkerLevelsComplete(s: string, from: nat, p: nat, a: nat, b: nat)
    requires from <= p <= |s| && IsMarker(s, p) && TailAt(WithMarker, s, p, a, b)
    ensures a <= |s| && "+" + s[a..DigitsEnd(s, a)] in MarkerLevels(s, from)
    decreases |s| - from
  {
    MarkerMatchComplete(s, p, a, b);
    MarkerLevelsAt(s, from);
    if from == p {
      assert MarkerLevels(s, from)[0] == "+" + s[a..DigitsEnd(s, a)];
    } else if MarkerMatch(s, from).Some? {
      MarkerMatchBefore(s, from, p);
      MarkerLevelsComplete(s, MarkerMatch(s, from).value.1, p, a, b);
    } else {
      MarkerLevelsComplete(s, from + 1, p, a, b);
    }
  }

  lemma MarkerLevelsNoMarker(s: string, from: nat)
    requires from < |s| && !IsMarker(s, from)
    ensures MarkerLevels(s, from) == MarkerLevels(s, from + 1)
  {
  }

  /** `^` under `re.MULTILINE`: the start of the text or of a line. */
  predicate LineStart(s: string, p: nat) {
    p == 0 || (p <= |s| && s[p - 1] == '\n')
  }

  /**
   * `\+(\d+)` with the `+` at `q`, followed by `(?:\s|$)` as written: a
   * whitespace character after the digits is consumed. Gives the digit span
   * and the end of the match.
   */
  function PlusDigitsConsuming(s: string, q: nat): (r: Option<(nat, nat, nat)>)
    ensures r.Some? ==> q + 1 < r.value.1 <= r.value.2 <= |s| && r.value.0 == q + 1
    ensures r.Some? ==> s[q] == '+' && DigitsBetween(s, r.value.0, r.value.1)
  {
    if q < |s| && s[q] == '+' then
      var b := DigitsEnd(s, q + 1);
      if b == q + 1 then None
      else if b < |s| && IsSpace(s[b]) then Some((q + 1, b, b + 1))
      else if b == |s| then Some((q + 1, b, b))
      else None
    else None
  }

  /**
   * `\+(\d+)(?=\s|$)`: the same test on what follows the digits, without
   * consuming the whitespace.
   */
  function PlusDigits(s: string, q: nat): (r: Option<(nat, nat)>)
    ensures r.Some? ==> r.value.0 == q + 1 < r.value.1 <= |s|
    ensures r.Some? ==> s[q] == '+' && DigitsBetween(s, r.value.0, r.value.1)
    ensures r.Some? ==> r.value.1 == |s| || IsSpace(s[r.value.1])
    ensures PlusDigitsConsuming(s, q).Some? <==> r.Some?
  {
    match PlusDigitsConsuming(s, q)
    case Some((a, b, _)) => Some((a, b))
    case None => None
  }

  /**
   * A match of `(?:^|\s)\+(\d+)(?:\s|$)` starting at `p`: `^` is tried
   * first, then one whitespace character before the `+`.
   */
  function PlusMatchConsuming(s: string, p: nat): (r: Option<(nat, nat, nat)>)
    requires p < |s|
    ensures r.Some? ==> p < r.value.0 < r.value.1 <= r.value.2 <= |s| && DigitsBetween(s, r.value.0, r.value.1)
  {
    if LineStart(s, p) && PlusDigitsConsuming(s, p).Some? then PlusDigitsConsuming(s, p)
    else if IsSpace(s[p]) then PlusDigitsConsuming(s, p + 1)
    else None
  }

  /** The same start test, with the trailing whitespace left for the next match. */
  function PlusMatch(s: string, p: nat): (r: Option<(nat, nat)>)
    requires p < |s|
    ensures r.Some? ==> p < r.value.0 < r.value.1 <= |s| && DigitsBetween(s, r.value.0, r.value.1)
    ensures r.Some? ==> s[r.value.0 - 1] == '+' && (LineStart(s, r.value.0 - 1) || IsSpace(s[r.value.0 - 2]))
    ensures r.Some? ==> r.value.1 == |s| || IsSpace(s[r.value.1])
  {
    if LineStart(s, p) && PlusDigits(s, p).Some? then PlusDigits(s, p)
    else if IsSpace(s[p]) then PlusDigits(s, p + 1)
    else None
  }

  /** `re.finditer` over the free-standing `+N` pattern as written: resumes after the consumed whitespace. */
  function PlusLevelsConsuming(s: string, from: nat): (r: seq<string>)
    requires from <= |s|
    ensures forall l :: l in r ==> IsLevel(l)
    decreases |s| - from
  {
    if from == |s| then []
    else match PlusMatchConsuming(s, from)
      case Some((a, b, end)) =>
        LevelOfDigits(s[a..b]);
        ["+" + s[a..b]] + PlusLevelsConsuming(s, end)
      case None => PlusLevelsConsuming(s, from + 1)
  }

  /** `re.finditer` over the free-standing `+N` pattern with the trailing test as a lookahead. */
  function PlusLevels(s: string, from: nat): (r: seq<string>)
    requires from <= |s|
    ensures forall l :: l in r ==> IsLevel(l)
    decreases |s| - from
  {
    if from == |s| then []
    else match PlusMatch(s, from)
      case Some((a, b)) =>
        LevelOfDigits(s[a..b]);
        ["+" + s[a..b]] + PlusLevels(s, b)
      case None => PlusLevels(s, from + 1)
  }

  /**
   * Two free-standing levels separated by one space: the consuming pattern
   * swallows the separator, so the second level has neither a line start nor
   * a whitespace character before it and is lost.
   */
  lemma AdjacentLevelsConsuming()
    ensures PlusLevelsConsuming("+1 +2", 0) == ["+1"]
  {
    var s := "+1 +2";
    assert DigitsEnd(s, 1) == 2;
    assert DigitsEnd(s, 4) == 5;
    assert PlusDigitsConsuming(s, 0) == Some((1, 2, 3));
    assert PlusMatchConsuming(s, 0) == Some((1, 2, 3));
    assert PlusMatchConsuming(s, 3) == None;
    assert PlusMatchConsuming(s, 4) == None;
    assert PlusLevelsConsuming(s, 5) == [];
    assert PlusLevelsConsuming(s, 4) == [];
    assert PlusLevelsConsuming(s, 3) == [];
    assert "+" + s[1..2] == "+1";
    assert PlusLevelsConsuming(s, 0) == ["+1"] + PlusLevelsConsuming(s, 3);
  }

  /** With the lookahead both levels are collected. */
  lemma AdjacentLevels()
    ensures PlusLevels("+1 +2", 0) == ["+1", "+2"]
  {
    var s := "+1 +2";
    assert DigitsEnd(s, 1) == 2;
    assert DigitsEnd(s, 4) == 5;
    assert PlusDigits(s, 0) == Some((1, 2));
    assert PlusDigits(s, 3) == Some((4, 5));
    assert PlusMatch(s, 0) == Some((1, 2));
    assert PlusMatch(s, 2) == Some((4, 5));
    assert PlusLevels(s, 5) == [];
    assert "+" + s[1..2] == "+1" && "+" + s[4..5] == "+2";
    assert PlusLevels(s, 2) == ["+2"] + PlusLevels(s, 5);
    assert PlusLevels(s, 0) == ["+1"] + PlusLevels(s, 2);
  }

  /** A digit run that stops at a non-digit is the run `DigitsEnd` finds. */
  lemma {:induction false} DigitsEndUnique(s: string, i: nat, b: nat)
    requires i <= b && DigitsBetween(s, i, b) && (b == |s| || !IsDigit(s[b]))
    ensures DigitsEnd(s, i) == b
    decreases b - i
  {
    if i < b {
      DigitsEndUnique(s, i + 1, b);
    }
  }

  /**
   * The lookahead version finds every free-standing level: a `+` at the start
   * of a line or after whitespace, followed by digits that run up to
   * whitespace or the end of the text, contributes its level.
   */
  lemma {:induction false} PlusLevelsComplete(s: string, from: nat, q: nat, b: nat)
    requires q + 1 < b <= |s|
    requires s[q] == '+' && DigitsBetween(s, q + 1, b) && (b == |s| || IsSpace(s[b]))
    requires (LineStart(s, q) && from <= q) || (from < q && IsSpace(s[q - 1]))
    ensures "+" + s[q + 1..b] in PlusLevels(s, from)
    decreases |s| - from
  {
    var l := "+" + s[q + 1..b];
    PlusLevelsAt(s, from);
    if (from == q && LineStart(s, q)) || (from + 1 == q && IsSpace(s[q - 1])) {
      PlusMatchFound(s, from, q, b);
      assert PlusLevels(s, from)[0] == l;
    } else if PlusMatch(s, from).Some? {
      var b' := PlusMatch(s, from).value.1;
      PlusMatchEarlier(s, from, q);
      PlusLevelsComplete(s, b', q, b);
    } else {
      PlusLevelsComplete(s, from + 1, q, b);
    }
  }

  /** One step of the lookahead walk. */
  lemma PlusLevelsAt(s: string, from: nat)
    requires from < |s|
    ensures PlusMatch(s, from).None? ==> PlusLevels(s, from) == PlusLevels(s, from + 1)
    ensures PlusMatch(s, from).Some? ==>
      var (a, b) := PlusMatch(s, from).value;
      PlusLevels(s, from) == ["+" + s[a..b]] + PlusLevels(s, b)
  {
  }

  /** At the `+` itself after a line start, or at the whitespace just before it, the match is that level. */
  lemma PlusMatchFound(s: string, from: nat, q: nat, b: nat)
    requires q + 1 < b <= |s|
    requires s[q] == '+' && DigitsBetween(s, q + 1, b) && (b == |s| || IsSpace(s[b]))
    requires (from == q && LineStart(s, q)) || (from + 1 == q && IsSpace(s[q - 1]))
    ensures PlusMatch(s, from) == Some((q + 1, b))
  {
    DigitsEndUnique(s, q + 1, b);
    assert PlusDigits(s, q) == Some((q + 1, b));
    if from + 1 == q {
      assert PlusDigits(s, from) == None;
    }
  }

  /** A match that starts before the `+` at `q` without being its level ends before `q`. */
  lemma PlusMatchEarlier(s: string, from: nat, q: nat)
    requires from < |s| && q < |s| && s[q] == '+' && from <= q
    requires !(from + 1 == q && IsSpace(s[q - 1]))
    requires PlusMatch(s, from).Some? && PlusMatch(s, from).value.0 != q + 1
    ensures PlusMatch(s, from).value.1 < q
  {
    var (a', b') := PlusMatch(s, from).value;
    assert a' <= q;
    assert !IsDigit(s[q]) && !IsSpace(s[q]);
  }

  /**
   * The pattern as written still finds a free-standing level whose leading
   * whitespace cannot have been swallowed: a `+` at the start of a line, or
   * after whitespace that does not directly follow a digit. It loses a level
   * only when the whitespace before it ends the previous level.
   */
  lemma {:induction false} PlusLevelsConsumingComplete(s: string, from: nat, q: nat, b: nat)
    requires q + 1 < b <= |s|
    requires s[q] == '+' && DigitsBetween(s, q + 1, b) && (b == |s| || IsSpace(s[b]))
    requires (LineStart(s, q) && from <= q) || (from < q && IsSpace(s[q - 1]) && (q < 2 || !IsDigit(s[q - 2])))
    ensures "+" + s[q + 1..b] in PlusLevelsConsuming(s, from)
    decreases |s| - from
  {
    var l := "+" + s[q + 1..b];
    PlusLevelsConsumingAt(s, from);
    if (from == q && LineStart(s, q)) || (from + 1 == q && IsSpace(s[q - 1])) {
      var e := PlusMatchConsumingFound(s, from, q, b);
      assert PlusLevelsConsuming(s, from)[0] == l;
    } else if PlusMatchConsuming(s, from).Some? {
      var e' := PlusMatchConsuming(s, from).value.2;
      PlusMatchConsumingEarlier(s, from, q);
      PlusLevelsConsumingComplete(s, e', q, b);
    } else {
      PlusLevelsConsumingComplete(s, from + 1, q, b);
    }
  }

  /** One step of the consuming walk. */
  lemma PlusLevelsConsumingAt(s: string, from: nat)
    requires from < |s|
    ensures PlusMatchConsuming(s, from).None? ==> PlusLevelsConsuming(s, from) == PlusLevelsConsuming(s, from + 1)
    ensures PlusMatchConsuming(s, from).Some? ==>
      var (a, b, e) := PlusMatchConsuming(s, from).value;
      PlusLevelsConsuming(s, from) == ["+" + s[a..b]] + PlusLevelsConsuming(s, e)
  {
  }

  /** At the `+` itself after a line start, or at the whitespace just before it, the match is that level. */
  lemma PlusMatchConsumingFound(s: string, from: nat, q: nat, b: nat) returns (e: nat)
    requires q + 1 < b <= |s|
    requires s[q] == '+' && DigitsBetween(s, q + 1, b) && (b == |s| || IsSpace(s[b]))
    requires (from == q && LineStart(s, q)) || (from + 1 == q && IsSpace(s[q - 1]))
    ensures PlusMatchConsuming(s, from) == Some((q + 1, b, e))
  {
    DigitsEndUnique(s, q + 1, b);
    e := if b < |s| then b + 1 else b;
    assert PlusDigitsConsuming(s, q) == Some((q + 1, b, e));
    if from + 1 == q {
      assert PlusDigitsConsuming(s, from) == None;
    }
  }

  /**
   * A match that starts before the `+` at `q` without being its level ends
   * at `q` at the latest, and before `q` unless a digit precedes `q - 1`.
   */
  lemma PlusMatchConsumingEarlier(s: string, from: nat, q: nat)
    requires from < q < |s| && s[q] == '+'
    requires !(from + 1 == q && IsSpace(s[q - 1]))
    requires PlusMatchConsuming(s, from).Some?
    ensures PlusMatchConsuming(s, from).value.2 <= q
    ensures q >= 2 && !IsDigit(s[q - 2]) ==> PlusMatchConsuming(s, from).value.2 < q
  {
    var (a', b', e') := PlusMatchConsuming(s, from).value;
    assert a' <= q;
    assert !IsDigit(s[q]) && !IsSpace(s[q]);
    assert b' < q;
    if e' == q {
      assert b' == q - 1 && s[b' - 1] == s[q - 2];
    }
  }

  /** The first `re.finditer` loop of `collect_levels`: marker levels. */
  method ScanMarkerLevels(raw: string) returns (levels: seq<string>)
    ensures levels == MarkerLevels(raw, 0)
  {
    levels := [];
    var pos := 0;
    while pos < |raw|
      invariant pos <= |raw|
      invariant levels + MarkerLevels(raw, pos) == MarkerLevels(raw, 0)
      decreases |raw| - pos
    {
      var t := MarkerMatch(raw, pos);
      if t.Some? {
        var (a, b) := t.value;
        levels := levels + ["+" + raw[a..b]];
        pos := b;
      } else {
        pos := pos + 1;
      }
    }
  }

  /**
   * The second `re.finditer` loop of `collect_levels`: free-standing levels,
   * each search resuming after the whitespace the previous match consumed.
   */
  method ScanPlusLevels(raw: string) returns (levels: seq<string>)
    ensures levels == PlusLevelsConsuming(raw, 0)
  {
    levels := [];
    var pos := 0;
    while pos < |raw|
      invariant pos <= |raw|
      invariant levels + PlusLevelsConsuming(raw, pos) == PlusLevelsConsuming(raw, 0)
      decreases |raw| - pos
    {
      var m := PlusMatchConsuming(raw, pos);
      if m.Some? {
        var (a, b, end) := m.value;
        levels := levels + ["+" + raw[a..b]];
        pos := end;
      } else {
        pos := pos + 1;
      }
    }
  }

  /**
   * `collect_levels(raw)`: the marker levels in order of occurrence, then the
   * free-standing `+N` levels in order of occurrence.
   */
  method CollectLevels(raw: string) returns (levels: seq<string>)
    ensures levels == MarkerLevels(raw, 0) + PlusLevelsConsuming(raw, 0)
    ensures forall l :: l in levels ==> IsLevel(l)
  {
    var markers := ScanMarkerLevels(raw);
    var plus := ScanPlusLevels(raw);
    levels := markers + plus;
  }

  lemma PlusLevelsConsumingNoMatch(s: string, from: nat)
    requires from < |s| && PlusMatchConsuming(s, from).None?
    ensures PlusLevelsConsuming(s, from) == PlusLevelsConsuming(s, from + 1)
  {
  }

  /**
   * On a skill line written with a marker and a `+`, both loops of
   * `collect_levels` find the level: the marker loop through `Lv +2`, the
   * free-standing loop through ` +2` at the end of the text.
   */
  lemma CollectLevelsExample(line: string)
    requires line == "격파쇄 Lv +2"
    ensures MarkerLevels(line, 0) == ["+2"]
    ensures PlusLevelsConsuming(line, 0) == ["+2"]
  {
    ExampleBeforeMarker(line);
    ExampleMarker(line);
    ExampleBeforePlus(line);
    ExamplePlus(line);
  }

  /** No marker starts in "격파쇄 ". */
  lemma ExampleBeforeMarker(line: string)
    requires line == "격파쇄 Lv +2"
    ensures MarkerLevels(line, 0) == MarkerLevels(line, 4)
  {
    MarkerLevelsNoMarker(line, 0);
    MarkerLevelsNoMarker(line, 1);
    ExampleBeforeMarkerRest(line);
  }

  lemma ExampleBeforeMarkerRest(line: string)
    requires line == "격파쇄 Lv +2"
    ensures MarkerLevels(line, 2) == MarkerLevels(line, 4)
  {
    MarkerLevelsNoMarker(line, 2);
    MarkerLevelsNoMarker(line, 3);
  }

  /** From "Lv +2" on, the marker loop finds one level. */
  lemma ExampleMarker(line: string)
    requires line == "격파쇄 Lv +2"
    ensures MarkerLevels(line, 4) == ["+2"]
  {
    assert Gap(line, 6, 8) by {
      assert line[7] == '+' && SpacesBetween(line, 6, 7) && SpacesBetween(line, 8, 8);
    }
    assert MarkerLead(line, 4, 8) by {
      assert SpacesBetween(line, 4, 4) && IsMarker(line, 4);
    }
    MarkerMatchComplete(line, 4, 8, 9);
    DigitsEndUnique(line, 8, 9);
    MarkerLevelsAt(line, 4);
    assert MarkerMatch(line, 4) == Some((8, 9));
    assert "+" + line[8..9] == "+2";
    assert MarkerLevels(line, 9) == [];
  }

  /** The free-standing pattern matches nowhere in "격파쇄 Lv". */
  lemma ExampleBeforePlus(line: string)
    requires line == "격파쇄 Lv +2"
    ensures PlusLevelsConsuming(line, 0) == PlusLevelsConsuming(line, 6)
  {
    assert PlusDigitsConsuming(line, 0).None?;
    PlusLevelsConsumingNoMatch(line, 0);
    PlusLevelsConsumingNoMatch(line, 1);
    PlusLevelsConsumingNoMatch(line, 2);
    ExampleBeforePlusRest(line);
  }

  lemma ExampleBeforePlusRest(line: string)
    requires line == "격파쇄 Lv +2"
    ensures PlusLevelsConsuming(line, 3) == PlusLevelsConsuming(line, 6)
  {
    assert PlusDigitsConsuming(line, 4).None?;
    PlusLevelsConsumingNoMatch(line, 3);
    PlusLevelsConsumingNoMatch(line, 4);
    PlusLevelsConsumingNoMatch(line, 5);
  }

  /** From " +2" on, the free-standing loop finds one level. */
  lemma ExamplePlus(line: string)
    requires line == "격파쇄 Lv +2"
    ensures PlusLevelsConsuming(line, 6) == ["+2"]
  {
    var e := PlusMatchConsumingFound(line, 6, 7, 9);
    PlusLevelsConsumingAt(line, 6);
    assert "+" + line[8..9] == "+2";
    assert PlusLevelsConsuming(line, 9) == [];
  }

}

/**
 * `parse_full_text` of run-test.py: the whole OCR text of one item becomes a
 * set name, a type name and at most four skills. A structured pass reads the
 * non-blank lines and every pair of neighbouring lines joined by a space; a
 * recovery pass adds skills whose names occur anywhere in the text, giving
 * them the levels no structured skill used; a fallback pass and a plain
 * substring search fill a missing set or type name.
 */
module FullText {
  import opened Wrappers
  import opened Text
  import opened SkillParser
  import opened RawSearch

  /** The result dictionary: `set`, `type` and `skills` (empty names meaning "not found"). */
  datatype Parsed = Parsed(setName: string, typeName: string, skills: seq<Skill>)

  // ------------------------------------------------------------------ lines

  /** The stripped parts that are not blank, in order. */
  function NonBlank(parts: seq<string>): (r: seq<string>)
    ensures |r| <= |parts|
    ensures forall k :: 0 <= k < |r| ==> r[k] != [] && !IsSpace(r[k][0]) && !IsSpace(r[k][|r[k]| - 1])
  {
    if parts == [] then []
    else if Strip(parts[0]) != [] then [Strip(parts[0])] + NonBlank(parts[1..])
    else NonBlank(parts[1..])
  }

  /** `[l.strip() for l in raw.split('\n') if l.strip()]`. */
  function Lines(raw: string): (r: seq<string>)
    ensures forall k :: 0 <= k < |r| ==> r[k] != [] && !IsSpace(r[k][0]) && !IsSpace(r[k][|r[k]| - 1])
  {
    NonBlank(Split(raw, '\n'))
  }

  /**
   * `merged`: every line, each followed by itself joined with the next line
   * by one space (except the last line).
   */
  function Merged(lines: seq<string>): (r: seq<string>)
    ensures |r| == if |lines| == 0 then 0 else 2 * |lines| - 1
    ensures forall i :: 0 <= i < |lines| ==> r[2 * i] == lines[i]
    ensures forall i :: 0 <= i < |lines| - 1 ==> r[2 * i + 1] == lines[i] + " " + lines[i + 1]
  {
    if |lines| <= 1 then lines
    else
      var rest := Merged(lines[1..]);
      var r := [lines[0], lines[0] + " " + lines[1]] + rest;
      forall i | 1 <= i < |lines|
        ensures r[2 * i] == lines[i]
      {
        assert r[2 * i] == rest[2 * (i - 1)];
      }
      forall i | 1 <= i < |lines| - 1
        ensures r[2 * i + 1] == lines[i] + " " + lines[i + 1]
      {
        assert r[2 * i + 1] == rest[2 * (i - 1) + 1];
      }
      r
  }

  /** The merge loop of `parse_full_text`. */
  method MergeLines(lines: seq<string>) returns (merged: seq<string>)
    ensures merged == Merged(lines)
  {
    merged := [];
    for i := 0 to |lines|
      invariant |merged| == if i == 0 then 0 else if i < |lines| then 2 * i else 2 * i - 1
      invariant forall k :: 0 <= k < i ==> merged[2 * k] == lines[k]
      invariant forall k :: 0 <= k < i && k + 1 < |lines| ==> merged[2 * k + 1] == lines[k] + " " + lines[k + 1]
    {
      merged := merged + [lines[i]];
      if i + 1 < |lines| {
        merged := merged + [lines[i] + " " + lines[i + 1]];
      }
    }
    var m := Merged(lines);
    forall k | 0 <= k < |merged|
      ensures merged[k] == m[k]
    {
      var j := k / 2;
      if k % 2 == 0 {
        assert k == 2 * j;
        assert merged[2 * j] == m[2 * j];
      } else {
        assert k == 2 * j + 1 && j + 1 < |lines|;
        assert merged[2 * j + 1] == lines[j] + " " + lines[j + 1];
        assert m[2 * j + 1] == lines[j] + " " + lines[j + 1];
      }
    }
  }

  // ------------------------------------------------------ the structured pass

  /** No two entries with the same name and the same level. */
  predicate NoDuplicatePairs(skills: seq<Skill>) {
    forall i, j :: 0 <= i < j < |skills| ==> skills[i] != skills[j]
  }

  /** Names and levels a structured entry can have. */
  predicate StructuredEntry(sk: Skill) {
    IsLevel(sk.level) && (sk.name in Skills || (|sk.name| >= 2 && !IsIgnored(sk.name) && IsCleanName(sk.name)))
  }

  /** What the structured pass keeps true of its state. */
  predicate Consistent(p: Parsed) {
    && |p.skills| <= 4
    && NoDuplicatePairs(p.skills)
    && (forall k :: 0 <= k < |p.skills| ==> StructuredEntry(p.skills[k]))
    && (p.setName == "" || p.setName in SetNames)
    && (p.typeName == "" || p.typeName in TypeNames)
  }

  /** The set/type half of one iteration: fill what is still missing from a `parse_type_name` answer. */
  function TypeStep(p: Parsed, st: Option<(string, string)>): Parsed {
    if p.setName == "" || p.typeName == "" then
      match st
      case Some((s, t)) =>
        p.(setName := if p.setName == "" then s else p.setName,
           typeName := if p.typeName == "" then t else p.typeName)
      case None => p
    else p
  }

  /** The skill half of one iteration: append a new (name, level) pair while fewer than four. */
  function SkillStep(p: Parsed, sp: Option<Skill>): Parsed {
    if |p.skills| < 4 then
      match sp
      case Some(sk) => if sk !in p.skills then p.(skills := p.skills + [sk]) else p
      case None => p
    else p
  }

  /** One iteration of the structured pass on `line`. */
  function Step(p: Parsed, line: string): Parsed {
    SkillStep(TypeStep(p, ParseTypeName(line)), ParseSkillLine(line))
  }

  /** The structured pass over `merged`, from state `p`. */
  function Structured(p: Parsed, merged: seq<string>): Parsed
    decreases |merged|
  {
    if merged == [] then p
    else Structured(Step(p, merged[0]), merged[1..])
  }

  /** The set/type half keeps the state consistent and changes no skill and no name already found. */
  lemma TypeStepKeeps(p: Parsed, st: Option<(string, string)>)
    requires Consistent(p)
    requires st.Some? ==> st.value.0 in SetNames && st.value.1 in TypeNames
    ensures Consistent(TypeStep(p, st)) && TypeStep(p, st).skills == p.skills
    ensures p.setName != "" ==> TypeStep(p, st).setName == p.setName
    ensures p.typeName != "" ==> TypeStep(p, st).typeName == p.typeName
  {
  }

  /** The skill half keeps the state consistent, only appends, and leaves the names alone. */
  lemma SkillStepKeeps(p: Parsed, sp: Option<Skill>)
    requires Consistent(p)
    requires sp.Some? ==> StructuredEntry(sp.value)
    ensures Consistent(SkillStep(p, sp))
    ensures p.skills <= SkillStep(p, sp).skills
    ensures SkillStep(p, sp).setName == p.setName && SkillStep(p, sp).typeName == p.typeName
  {
    if |p.skills| < 4 && sp.Some? && sp.value !in p.skills {
      var r := p.skills + [sp.value];
      assert r[|p.skills|] == sp.value;
      forall i, j | 0 <= i < j < |r|
        ensures r[i] != r[j]
      {
        if j == |p.skills| {
          assert r[i] == p.skills[i];
        }
      }
    }
  }

  /** One iteration keeps the state consistent, only appends, and keeps names already found. */
  lemma StepKeeps(p: Parsed, line: string)
    requires Consistent(p)
    ensures Consistent(Step(p, line))
    ensures p.skills <= Step(p, line).skills
    ensures p.setName != "" ==> Step(p, line).setName == p.setName
    ensures p.typeName != "" ==> Step(p, line).typeName == p.typeName
  {
    var st := ParseTypeName(line);
    var sp := ParseSkillLine(line);
    TypeStepKeeps(p, st);
    SkillStepKeeps(TypeStep(p, st), sp);
  }

  /**
   * The structured pass keeps the state consistent: at most four entries,
   * no duplicate (name, level) pair, names from the lists; entries already
   * there stay in place, and a name once found is kept.
   */
  lemma {:induction false} StructuredKeeps(p: Parsed, merged: seq<string>)
    requires Consistent(p)
    ensures Consistent(Structured(p, merged))
    ensures p.skills <= Structured(p, merged).skills
    ensures p.setName != "" ==> Structured(p, merged).setName == p.setName
    ensures p.typeName != "" ==> Structured(p, merged).typeName == p.typeName
    decreases |merged|
  {
    if merged != [] {
      StepKeeps(p, merged[0]);
      StructuredKeeps(Step(p, merged[0]), merged[1..]);
    }
  }

  /** The first loop of `parse_full_text` over `merged`. */
  method StructuredPass(merged: seq<string>) returns (p: Parsed)
    ensures p == Structured(Parsed("", "", []), merged)
  {
    p := Parsed("", "", []);
    for i := 0 to |merged|
      invariant Structured(p, merged[i..]) == Structured(Parsed("", "", []), merged)
    {
      assert merged[i..][0] == merged[i] && merged[i..][1..] == merged[i + 1..];
      var q := FillNames(p, ParseTypeName(merged[i]));
      p := AddSkill(q, ParseSkillLine(merged[i]));
    }
    assert merged[|merged|..] == [];
  }

  /**
   * The set/type half of an iteration, as the loop body runs it: a name is
   * taken only while it is still empty. `TypeStep` is its specification.
   */
  method FillNames(p: Parsed, st: Option<(string, string)>) returns (q: Parsed)
    ensures q == TypeStep(p, st)
  {
    q := p;
    if p.setName == "" || p.typeName == "" {
      if st.Some? {
        var (s, t) := st.value;
        if p.setName == "" {
          q := q.(setName := s);
        }
        if p.typeName == "" {
          q := q.(typeName := t);
        }
      }
    }
  }

  /**
   * The skill half of an iteration, as the loop body runs it: a new pair is
   * appended while there are fewer than four. `SkillStep` is its specification.
   */
  method AddSkill(p: Parsed, sp: Option<Skill>) returns (q: Parsed)
    ensures q == SkillStep(p, sp)
  {
    q := p;
    if |p.skills| < 4 {
      if sp.Some? && sp.value !in p.skills {
        q := q.(skills := p.skills + [sp.value]);
      }
    }
  }

  // -------------------------------------------------------- the recovery pass

  /** `[s['level'] for s in skills]`. */
  function LevelsOf(skills: seq<Skill>): seq<string> {
    seq(|skills|, k requires 0 <= k < |skills| => skills[k].level)
  }

  /** `xs.remove(u)`: drops the first occurrence of `u`, if there is one. */
  function RemoveFirst(xs: seq<string>, u: string): (r: seq<string>)
    ensures multiset(r) == multiset(xs) - multiset{u}
    ensures u !in xs ==> r == xs
  {
    if xs == [] then []
    else if xs[0] == u then
      assert xs == [xs[0]] + xs[1..];
      xs[1..]
    else
      assert xs == [xs[0]] + xs[1..];
      [xs[0]] + RemoveFirst(xs[1..], u)
  }

  /** It is the first occurrence that goes; everything else stays in its place. */
  lemma {:induction false} RemoveFirstAt(xs: seq<string>, u: string)
    requires u in xs
    ensures RemoveFirst(xs, u) == xs[..FirstIndex(xs, u)] + xs[FirstIndex(xs, u) + 1..]
  {
    if xs[0] != u {
      FirstIndexTail(xs, u);
      var k := FirstIndex(xs[1..], u);
      RemoveFirstAt(xs[1..], u);
      assert RemoveFirst(xs, u) == [xs[0]] + (xs[1..][..k] + xs[1..][k + 1..]);
      ConsSplice(xs, k);
    } else {
      assert xs[..0] + xs[1..] == xs[1..];
    }
  }

  lemma ConsSplice(xs: seq<string>, k: nat)
    requires k + 1 < |xs|
    ensures [xs[0]] + (xs[1..][..k] + xs[1..][k + 1..]) == xs[..k + 1] + xs[k + 2..]
  {
    assert [xs[0]] + xs[1..][..k] == xs[..k + 1];
    assert xs[1..][k + 1..] == xs[k + 2..];
  }

  /** What is left keeps its order. */
  lemma {:induction false} RemoveFirstSubsequence(xs: seq<string>, u: string)
    ensures Subsequence(RemoveFirst(xs, u), xs)
  {
    if xs != [] {
      if xs[0] == u {
        SubsequenceRefl(xs[1..]);
      } else {
        RemoveFirstSubsequence(xs[1..], u);
      }
    }
  }

  /**
   * `for u in used: if u in remain: remain.remove(u)`: one occurrence less
   * for each use, never below zero.
   */
  function RemoveUsed(remain: seq<string>, used: seq<string>): (r: seq<string>)
    ensures multiset(r) == multiset(remain) - multiset(used)
    decreases |used|
  {
    if used == [] then remain
    else
      var next := if used[0] in remain then RemoveFirst(remain, used[0]) else remain;
      assert used == [used[0]] + used[1..];
      RemoveUsed(next, used[1..])
  }

  /** The levels left over keep their order. */
  lemma {:induction false} RemoveUsedSubsequence(remain: seq<string>, used: seq<string>)
    ensures Subsequence(RemoveUsed(remain, used), remain)
    decreases |used|
  {
    if used == [] {
      SubsequenceRefl(remain);
    } else {
      var u := used[0];
      var next := if u in remain then RemoveFirst(remain, u) else remain;
      if u in remain {
        RemoveFirstSubsequence(remain, u);
      } else {
        SubsequenceRefl(remain);
      }
      RemoveUsedSubsequence(next, used[1..]);
      SubsequenceTrans(RemoveUsed(next, used[1..]), next, remain);
    }
  }

  /**
   * The entries the last recovery loop appends to a list with `room` free
   * places: the found entries in order, each taking the next remaining level
   * while there is one.
   */
  function Assigned(extra: seq<Skill>, remain: seq<string>, room: int): seq<Skill>
    decreases |extra|
  {
    if extra == [] || room <= 0 then []
    else if remain == [] then [extra[0]] + Assigned(extra[1..], [], room - 1)
    else [extra[0].(level := remain[0])] + Assigned(extra[1..], remain[1..], room - 1)
  }

  /**
   * What the loop appends: as many found entries as there is room for, the
   * `k`-th with the `k`-th remaining level when there is one and unchanged
   * otherwise.
   */
  lemma {:induction false} AssignedShape(extra: seq<Skill>, remain: seq<string>, room: int)
    ensures var r := Assigned(extra, remain, room);
      && |r| == (if room <= 0 then 0 else if |extra| < room then |extra| else room)
      && forall k :: 0 <= k < |r| ==> r[k] == if k < |remain| then extra[k].(level := remain[k]) else extra[k]
    decreases |extra|
  {
    if extra != [] && room > 0 {
      var rem := if remain == [] then [] else remain[1..];
      AssignedShape(extra[1..], rem, room - 1);
      var r := Assigned(extra, remain, room);
      forall k | 1 <= k < |r|
        ensures r[k] == if k < |remain| then extra[k].(level := remain[k]) else extra[k]
      {
        assert r[k] == Assigned(extra[1..], rem, room - 1)[k - 1];
        if remain != [] {
          assert k - 1 < |rem| <==> k < |remain|;
        }
      }
    }
  }

  /** Every level of the text: marker levels, then free-standing ones. */
  function AllLevels(raw: string): (r: seq<string>)
    ensures forall l :: l in r ==> IsLevel(l)
  {
    MarkerLevels(raw, 0) + PlusLevelsConsuming(raw, 0)
  }

  /** The skills after the recovery pass. */
  function Recovered(raw: string, skills: seq<Skill>): seq<Skill> {
    if |skills| < 4 then
      skills + Assigned(RawFinds(raw, skills), RemoveUsed(AllLevels(raw), LevelsOf(skills)), 4 - |skills|)
    else skills
  }

  /** Levels left over are levels of the text. */
  lemma RemainingAreLevels(raw: string, used: seq<string>)
    ensures forall l :: l in RemoveUsed(AllLevels(raw), used) ==> IsLevel(l)
  {
    var all := AllLevels(raw);
    var r := RemoveUsed(all, used);
    forall l | l in r
      ensures IsLevel(l)
    {
      assert l in multiset(r);
      assert l in multiset(all);
    }
  }

  /** Appending the assigned entries: the new entries carry the found names, in order. */
  lemma AppendedFacts(skills: seq<Skill>, extra: seq<Skill>, remain: seq<string>)
    requires |skills| < 4 && NoDuplicatePairs(skills)
    requires forall k :: 0 <= k < |extra| ==> extra[k].level == "" && extra[k].name !in Names(skills)
    requires forall i, j :: 0 <= i < j < |extra| ==> extra[i].name != extra[j].name
    ensures var r := skills + Assigned(extra, remain, 4 - |skills|);
      && skills <= r && |r| <= 4 && |r| <= |skills| + |extra| && NoDuplicatePairs(r)
      && (forall k :: |skills| <= k < |r| ==>
            r[k].name == extra[k - |skills|].name && (r[k].level == "" || r[k].level in remain))
      && (forall k, i :: 0 <= i < |skills| <= k < |r| ==> r[k].name != skills[i].name)
  {
    var added := Assigned(extra, remain, 4 - |skills|);
    AssignedShape(extra, remain, 4 - |skills|);
    var r := skills + added;
    forall k | |skills| <= k < |r|
      ensures r[k].name == extra[k - |skills|].name
      ensures r[k].level == "" || r[k].level in remain
    {
      assert r[k] == added[k - |skills|];
    }
    forall k, i | 0 <= i < |skills| <= k < |r|
      ensures r[k].name != skills[i].name
    {
      assert skills[i] in skills;
    }
    forall i, j | 0 <= i < j < |r|
      ensures r[i] != r[j]
    {
      if i >= |skills| {
        assert r[i].name == extra[i - |skills|].name && r[j].name == extra[j - |skills|].name;
      } else if j < |skills| {
        assert r[i] == skills[i] && r[j] == skills[j];
      } else {
        assert r[i] == skills[i];
      }
    }
  }

  /**
   * The recovery pass only appends, stays within four entries, and adds no
   * duplicate pair: each added entry has a name no earlier entry has.
   */
  lemma RecoveredShape(raw: string, skills: seq<Skill>)
    requires |skills| <= 4 && NoDuplicatePairs(skills)
    ensures var r := Recovered(raw, skills);
      && skills <= r && |r| <= 4 && NoDuplicatePairs(r)
      && (forall k, i :: 0 <= i < |skills| <= k < |r| ==> r[k].name != skills[i].name)
  {
    if |skills| < 4 {
      RawFindsFacts(raw, skills);
      AppendedFacts(skills, RawFinds(raw, skills), RemoveUsed(AllLevels(raw), LevelsOf(skills)));
    }
  }

  /**
   * Each entry the recovery pass adds is a listed skill that occurs in the
   * text, with a level of the text or an empty level.
   */
  lemma RecoveredEntries(raw: string, skills: seq<Skill>)
    requires |skills| <= 4 && NoDuplicatePairs(skills)
    ensures var r := Recovered(raw, skills);
      forall k :: |skills| <= k < |r| ==>
        r[k].name in Skills && Contains(raw, r[k].name) && (r[k].level == "" || IsLevel(r[k].level))
  {
    if |skills| < 4 {
      var extra := RawFinds(raw, skills);
      var remain := RemoveUsed(AllLevels(raw), LevelsOf(skills));
      RawFindsFacts(raw, skills);
      RemainingAreLevels(raw, LevelsOf(skills));
      AppendedFacts(skills, extra, remain);
      var r := Recovered(raw, skills);
      forall k | |skills| <= k < |r|
        ensures r[k].name in Skills && Contains(raw, r[k].name) && (r[k].level == "" || IsLevel(r[k].level))
      {
        assert r[k].name == extra[k - |skills|].name;
      }
    }
  }

  /** The levels left once every level already in use is removed once. */
  method RemainingLevels(allLevels: seq<string>, used: seq<string>) returns (remain: seq<string>)
    ensures remain == RemoveUsed(allLevels, used)
  {
    remain := allLevels;
    for i := 0 to |used|
      invariant RemoveUsed(remain, used[i..]) == RemoveUsed(allLevels, used)
    {
      assert used[i..][0] == used[i] && used[i..][1..] == used[i + 1..];
      if used[i] in remain {
        remain := RemoveFirst(remain, used[i]);
      }
    }
    assert used[|used|..] == [];
  }

  /** The loop over `extra`: stop at four entries, pop the next level when there is one. */
  method AppendFound(skills: seq<Skill>, extra: seq<Skill>, remain: seq<string>) returns (r: seq<Skill>)
    ensures r == skills + Assigned(extra, remain, 4 - |skills|)
  {
    r := skills;
    var rest := remain;
    var k := 0;
    while k < |extra|
      invariant k <= |extra|
      invariant r + Assigned(extra[k..], rest, 4 - |r|) == skills + Assigned(extra, remain, 4 - |skills|)
    {
      assert extra[k..][0] == extra[k] && extra[k..][1..] == extra[k + 1..];
      if |r| >= 4 {
        break;
      }
      var e := extra[k];
      if rest != [] {
        e := e.(level := rest[0]);
        rest := rest[1..];
      }
      r := r + [e];
      k := k + 1;
    }
    assert r + Assigned(extra[k..], rest, 4 - |r|) == r;
  }

  /** The recovery pass of `parse_full_text`. */
  method Recover(raw: string, skills: seq<Skill>) returns (r: seq<Skill>)
    ensures r == Recovered(raw, skills)
  {
    r := skills;
    if |skills| < 4 {
      var extra := FindSkillsInRaw(raw, skills);
      var allLevels := CollectLevels(raw);
      var remain := RemainingLevels(allLevels, LevelsOf(skills));
      r := AppendFound(skills, extra, remain);
    }
  }

  // ------------------------------------------------- set and type fallbacks

  /** The set and type names found so far. */
  datatype Header = Header(setName: string, typeName: string)

  /** Both names are empty or come from their lists. */
  predicate Listed(h: Header) {
    (h.setName == "" || h.setName in SetNames) && (h.typeName == "" || h.typeName in TypeNames)
  }

  /** A non-empty `match_exact` answer, or the name kept so far. */
  function Fill(current: string, answer: Option<string>): string {
    if current == "" && answer.Some? && answer.value != "" then answer.value else current
  }

  /**
   * One line of the fallback loop: on a `A의 B` match, each missing name is
   * looked up on its own group by `match_exact`.
   */
  function FallbackStep(h: Header, line: string): Header {
    match TypeGroups(line)
    case None => h
    case Some((g1, g2)) =>
      Header(Fill(h.setName, ExactMatch(g1, SetNames)), Fill(h.typeName, ExactMatch(g2, TypeNames)))
  }

  /** The fallback loop over the lines, which stops once both names are known. */
  function Fallback(h: Header, lines: seq<string>): Header
    decreases |lines|
  {
    if lines == [] || (h.setName != "" && h.typeName != "") then h
    else Fallback(FallbackStep(h, lines[0]), lines[1..])
  }

  /** The fallback keeps both names in their lists and never replaces a name already found. */
  lemma {:induction false} FallbackKeeps(h: Header, lines: seq<string>)
    requires Listed(h)
    ensures Listed(Fallback(h, lines))
    ensures h.setName != "" ==> Fallback(h, lines).setName == h.setName
    ensures h.typeName != "" ==> Fallback(h, lines).typeName == h.typeName
    decreases |lines|
  {
    if lines != [] && (h.setName == "" || h.typeName == "") {
      FallbackKeeps(FallbackStep(h, lines[0]), lines[1..]);
    }
  }

  /** With no names yet, a line `set의 type` of a listed set name and a listed type name fills both. */
  lemma FallbackFillsHeader(line: string, setName: string, typeName: string)
    requires setName in SetNames && typeName in TypeNames
    requires line == setName + "의 " + typeName
    ensures FallbackStep(Header("", ""), line) == Header(setName, typeName)
  {
    ListedWords(setName);
    ListedWords(typeName);
    TypeLineGroups(line, setName, typeName);
    RemoveSpacesNone(setName);
    RemoveSpacesNone(typeName);
  }

  /** The fallback fills an empty header from the line "마력의 거울". */
  lemma FallbackExample(line: string)
    requires line == "마력의 거울"
    ensures Fallback(Header("", ""), [line]) == Header("마력", "거울")
  {
    assert line == "마력" + "의 " + "거울";
    FallbackFillsHeader(line, "마력", "거울");
    FallbackOne(Header("", ""), line);
  }

  /** A single line with a name still missing goes through one fallback step. */
  lemma FallbackOne(h: Header, line: string)
    requires h.setName == "" || h.typeName == ""
    ensures Fallback(h, [line]) == FallbackStep(h, line)
  {
    assert [line][1..] == [];
  }

  /** The body of the fallback loop for one line, as it runs; `FallbackStep` is its specification. */
  method FillFromLine(setName: string, typeName: string, line: string) returns (s: string, t: string)
    ensures Header(s, t) == FallbackStep(Header(setName, typeName), line)
  {
    s, t := setName, typeName;
    var fm := TypeGroups(line);
    if fm.Some? {
      var (g1, g2) := fm.value;
      if s == "" {
        var m := ExactMatch(g1, SetNames);
        if m.Some? && m.value != "" {
          s := m.value;
        }
      }
      if t == "" {
        var m := ExactMatch(g2, TypeNames);
        if m.Some? && m.value != "" {
          t := m.value;
        }
      }
    }
  }

  /** The fallback loop of `parse_full_text`. */
  method FallbackScan(h: Header, lines: seq<string>) returns (r: Header)
    ensures r == Fallback(h, lines)
  {
    var setName, typeName := h.setName, h.typeName;
    for i := 0 to |lines|
      invariant Fallback(Header(setName, typeName), lines[i..]) == Fallback(h, lines)
    {
      assert lines[i..][0] == lines[i] && lines[i..][1..] == lines[i + 1..];
      if setName != "" && typeName != "" {
        break;
      }
      setName, typeName := FillFromLine(setName, typeName, lines[i]);
    }
    r := Header(setName, typeName);
  }

  /** Index of the first name of at least `minLen` characters that occurs in `raw`. */
  function FirstContained(names: seq<string>, raw: string, minLen: nat): (r: Option<nat>)
    ensures r.Some? ==> r.value < |names| && |names[r.value]| >= minLen && Contains(raw, names[r.value])
    ensures r.Some? ==> forall k :: 0 <= k < r.value ==> !(|names[k]| >= minLen && Contains(raw, names[k]))
    ensures r.None? ==> forall k :: 0 <= k < |names| ==> !(|names[k]| >= minLen && Contains(raw, names[k]))
  {
    if names == [] then None
    else if |names[0]| >= minLen && Contains(raw, names[0]) then Some(0)
    else match FirstContained(names[1..], raw, minLen)
      case None => None
      case Some(k) => Some(k + 1)
  }

  /** The last loops of `parse_full_text`: the first listed name found anywhere in the text. */
  method FirstContainedScan(names: seq<string>, raw: string, minLen: nat) returns (r: Option<nat>)
    ensures r == FirstContained(names, raw, minLen)
  {
    for i := 0 to |names|
      invariant forall k :: 0 <= k < i ==> !(|names[k]| >= minLen && Contains(raw, names[k]))
    {
      if |names[i]| >= minLen && Contains(raw, names[i]) {
        return Some(i);
      }
    }
    return None;
  }

  /** A missing name is taken from the first listed name that occurs in the text. */
  function FromRaw(current: string, names: seq<string>, raw: string, minLen: nat): (r: string)
    ensures current != "" ==> r == current
    ensures current == "" ==> r == "" || (r in names && |r| >= minLen && Contains(raw, r))
    ensures current == "" && r == "" && "" !in names ==> forall n :: n in names && |n| >= minLen ==> !Contains(raw, n)
  {
    if current != "" then current
    else match FirstContained(names, raw, minLen)
      case Some(i) => names[i]
      case None => ""
  }

  // --------------------------------------------------------- parse_full_text

  /** The dictionary `parse_full_text(raw)` returns. */
  function FullTextOf(raw: string): Parsed {
    var lines := Lines(raw);
    var p := StructuredOf(raw);
    var h := if p.setName == "" || p.typeName == "" then Fallback(Header(p.setName, p.typeName), lines)
             else Header(p.setName, p.typeName);
    Parsed(FromRaw(h.setName, SetNames, raw, 0), FromRaw(h.typeName, TypeNames, raw, 2), Recovered(raw, p.skills))
  }

  /** `parse_full_text(raw)`. */
  method ParseFullText(raw: string) returns (r: Parsed)
    ensures r == FullTextOf(raw)
  {
    var lines := Lines(raw);
    var merged := MergeLines(lines);
    var p := StructuredPass(merged);
    var skills := Recover(raw, p.skills);
    var setName, typeName := p.setName, p.typeName;
    if setName == "" || typeName == "" {
      var h := FallbackScan(Header(setName, typeName), lines);
      setName, typeName := h.setName, h.typeName;
    }
    setName := NameFromRaw(setName, SetNames, raw, 0);
    typeName := NameFromRaw(typeName, TypeNames, raw, 2);
    r := Parsed(setName, typeName, skills);
  }

  /**
   * The last resort for one name, as `parse_full_text` runs it: the first
   * listed name found in the raw text. `FromRaw` is its specification.
   */
  method NameFromRaw(current: string, names: seq<string>, raw: string, minLen: nat) returns (r: string)
    ensures r == FromRaw(current, names, raw, minLen)
  {
    r := current;
    if current == "" {
      var i := FirstContainedScan(names, raw, minLen);
      if i.Some? {
        r := names[i.value];
      }
    }
  }

  /** The structured pass of `parse_full_text` on `raw`. */
  function StructuredOf(raw: string): Parsed {
    Structured(Parsed("", "", []), Merged(Lines(raw)))
  }

  /**
   * The structured pass alone: at most four entries, no duplicate pair,
   * each with a level `+N` and a listed or usable cleaned name, and set and
   * type names from their lists or empty.
   */
  lemma StructuredOfConsistent(raw: string)
    ensures Consistent(StructuredOf(raw))
  {
    StructuredKeeps(Parsed("", "", []), Merged(Lines(raw)));
  }

  /**
   * The skills `parse_full_text` returns: at most four, no duplicate
   * (name, level) pair, and the structured entries first and unchanged.
   */
  lemma FullTextSkills(raw: string)
    ensures var r := FullTextOf(raw).skills;
      var structured := StructuredOf(raw).skills;
      && |r| <= 4
      && NoDuplicatePairs(r)
      && structured <= r
  {
    var p := StructuredOf(raw);
    StructuredKeeps(Parsed("", "", []), Merged(Lines(raw)));
    RecoveredShape(raw, p.skills);
    var r := Recovered(raw, p.skills);
    FullTextOfSkills(raw);
  }

  /**
   * After the structured entries, `parse_full_text` has only listed skills
   * that occur in the text, each with a level `+N` or an empty level.
   */
  lemma FullTextRecovered(raw: string)
    ensures var r := FullTextOf(raw).skills;
      forall k :: |StructuredOf(raw).skills| <= k < |r| ==>
        r[k].name in Skills && Contains(raw, r[k].name) && (r[k].level == "" || IsLevel(r[k].level))
  {
    var p := StructuredOf(raw);
    StructuredKeeps(Parsed("", "", []), Merged(Lines(raw)));
    RecoveredEntries(raw, p.skills);
    FullTextOfSkills(raw);
  }

  lemma FullTextOfSkills(raw: string)
    ensures FullTextOf(raw).skills == Recovered(raw, StructuredOf(raw).skills)
  {
  }

  /**
   * The set and type names `parse_full_text` returns come from their lists or
   * are empty, and are empty only when no listed name (of two or more
   * characters, for types) occurs in the text.
   */
  lemma FullTextNames(raw: string)
    ensures var r := FullTextOf(raw);
      && (r.setName == "" || r.setName in SetNames)
      && (r.typeName == "" || r.typeName in TypeNames)
      && (r.setName == "" ==> forall n :: n in SetNames ==> !Contains(raw, n))
      && (r.typeName == "" ==> forall n :: n in TypeNames && |n| >= 2 ==> !Contains(raw, n))
  {
    var lines := Lines(raw);
    var p := StructuredOf(raw);
    StructuredKeeps(Parsed("", "", []), Merged(lines));
    FallbackKeeps(Header(p.setName, p.typeName), lines);
    NamesNonEmpty();
  }

  // --------------------------------------------------------------- examples

  /** Text with no ignore-word initial and no `의`. */
  predicate PlainText(s: string) {
    forall i :: 0 <= i < |s| ==> !IsIgnoreInitial(s[i]) && s[i] != '의'
  }

  /** Plain text is not ignored and names no set and type. */
  lemma PlainFacts(s: string)
    requires PlainText(s)
    ensures !IsIgnored(s) && ParseTypeName(s) == None
  {
    NotIgnoredByInitials(s);
    assert '의' !in s;
    NoTypeName(s);
  }

  lemma JoinPlain(a: string, b: string)
    requires PlainText(a) && PlainText(b)
    ensures PlainText(a + " " + b)
  {
    var m := a + " " + b;
    forall i | 0 <= i < |m|
      ensures !IsIgnoreInitial(m[i]) && m[i] != '의'
    {
      if i < |a| { assert m[i] == a[i]; }
      else if i > |a| { assert m[i] == b[i - |a| - 1]; }
    }
  }

  /** A plain line made of a listed name, ` Lv +` and digits. */
  predicate MarkerEntry(line: string, n: string, d: string) {
    ListedName(n) && d != [] && AllDigits(d) && line == n + " Lv +" + d && PlainText(line)
  }

  /** Such a line gives its name at `+` its digits. */
  lemma EntryGives(line: string, n: string, d: string)
    requires MarkerEntry(line, n, d)
    ensures Gives(line, Skill(n, "+" + d))
  {
    assert line == n + " Lv +" + d + [];
    PlainFacts(line);
    MarkerLineListed(line, n, d, []);
  }

  /** Two such lines joined by a space give the first one's skill. */
  lemma JoinedGives(l1: string, n1: string, d1: string, l2: string, n2: string, d2: string)
    requires MarkerEntry(l1, n1, d1) && MarkerEntry(l2, n2, d2)
    ensures Gives(l1 + " " + l2, Skill(n1, "+" + d1))
  {
    EntryEndsInDigit(l2, n2, d2);
    JoinPlain(l1, l2);
    PlainFacts(l1 + " " + l2);
    JoinedTail(l1, l2, n1, d1);
    MarkerLineListed(l1 + " " + l2, n1, d1, " " + l2);
  }

  lemma EntryEndsInDigit(line: string, n: string, d: string)
    requires line == n + " Lv +" + d && d != [] && AllDigits(d)
    ensures line != [] && IsDigit(line[|line| - 1]) && !IsSpace(line[|line| - 1])
  {
    assert line[|line| - 1] == d[|d| - 1];
  }

  /** The joined line is the first line's entry followed by a tail that starts with a space. */
  lemma JoinedTail(l1: string, l2: string, n1: string, d1: string)
    requires l1 == n1 + " Lv +" + d1 && l2 != [] && !IsSpace(l2[|l2| - 1])
    ensures l1 + " " + l2 == n1 + " Lv +" + d1 + (" " + l2)
    ensures var rest := " " + l2; !IsDigit(rest[0]) && !IsSpace(rest[|rest| - 1])
  {
  }

  /** The example lines, spelled out. */
  lemma ExampleLine(line: string, n: string, d: string, v: string)
    requires (line, n, d, v) == ("격파쇄 Lv +2", "격파쇄", "2", "+2") || (line, n, d, v) == ("타격쇄 Lv +3", "타격쇄", "3", "+3")
    ensures line == n + " Lv +" + d && d != [] && AllDigits(d) && PlainText(line) && v == "+" + d
  {
    var a := n + " Lv +" + d;
    assert |a| == |line| == 9;
    forall i | 0 <= i < 9
      ensures a[i] == line[i]
    {
    }
    assert |v| == 2 && v[0] == '+' && v[1] == d[0];
  }

  /** A line that names no set and type and gives the skill `sk`. */
  predicate Gives(line: string, sk: Skill) {
    ParseTypeName(line) == None && ParseSkillLine(line) == Some(sk)
  }

  /** A line with no set/type answer and a new skill, while fewer than four, appends it. */
  lemma StepAppends(p: Parsed, line: string, sk: Skill)
    requires Gives(line, sk)
    requires |p.skills| < 4 && sk !in p.skills
    ensures Step(p, line) == p.(skills := p.skills + [sk])
  {
    assert TypeStep(p, None) == p;
  }

  /** A line with no set/type answer and a skill already kept changes nothing. */
  lemma StepRepeats(p: Parsed, line: string, sk: Skill)
    requires Gives(line, sk)
    requires sk in p.skills
    ensures Step(p, line) == p
  {
    assert TypeStep(p, None) == p;
  }

  /** Two lines merge into the first, the joined pair and the second. */
  lemma MergedTwo(l1: string, l2: string)
    ensures Merged([l1, l2]) == [l1, l1 + " " + l2, l2]
  {
    var r := Merged([l1, l2]);
    assert |r| == 3 && r[0] == l1 && r[1] == l1 + " " + l2 && r[2] == l2;
  }

  /** The structured pass over one line is one step. */
  lemma StructuredOne(p: Parsed, c: string)
    ensures Structured(p, [c]) == Step(p, c)
  {
    assert [c][1..] == [];
  }

  /** The structured pass over a line and more is a step, then the pass over the rest. */
  lemma StructuredCons(p: Parsed, a: string, rest: seq<string>)
    ensures Structured(p, [a] + rest) == Structured(Step(p, a), rest)
  {
    assert ([a] + rest)[1..] == rest;
  }

  /** The structured pass over three lines is three steps. */
  lemma StructuredThree(p: Parsed, a: string, b: string, c: string)
    ensures Structured(p, [a, b, c]) == Step(Step(Step(p, a), b), c)
  {
    assert [a, b, c] == [a] + ([b] + [c]);
    StructuredCons(p, a, [b] + [c]);
    StructuredCons(Step(p, a), b, [c]);
    StructuredOne(Step(Step(p, a), b), c);
  }

  lemma PairSkills(s1: Skill, s2: Skill)
    ensures [] + [s1] == [s1] && [s1] + [s2] == [s1, s2]
    ensures s1 != s2 ==> s2 !in [s1]
  {
  }

  /**
   * Two lines naming no set or type, each giving its own skill, where the
   * joined line repeats the first one's: the structured pass keeps both, in
   * order, and the repeat once.
   */
  lemma StructuredTwoLines(l1: string, l2: string, s1: Skill, s2: Skill)
    requires Gives(l1, s1) && Gives(l1 + " " + l2, s1) && Gives(l2, s2) && s1 != s2
    ensures Structured(Parsed("", "", []), Merged([l1, l2])) == Parsed("", "", [s1, s2])
  {
    var m := l1 + " " + l2;
    MergedTwo(l1, l2);
    PairSkills(s1, s2);
    var p0 := Parsed("", "", []);
    StructuredThree(p0, l1, m, l2);
    StepAppends(p0, l1, s1);
    var p1 := Parsed("", "", [s1]);
    StepRepeats(p1, m, s1);
    StepAppends(p1, l2, s2);
  }

  /**
   * The lines `격파쇄 Lv +2` and `타격쇄 Lv +3` give both skills in order;
   * the joined line repeats the first pair and is not added twice.
   */
  lemma TwoLineExample(l1: string, l2: string)
    requires l1 == "격파쇄 Lv +2" && l2 == "타격쇄 Lv +3"
    ensures Structured(Parsed("", "", []), Merged([l1, l2]))
      == Parsed("", "", [Skill("격파쇄", "+2"), Skill("타격쇄", "+3")])
  {
    var n1, d1, v1 := "격파쇄", "2", "+2";
    var n2, d2, v2 := "타격쇄", "3", "+3";
    ExampleLine(l1, n1, d1, v1);
    ExampleLine(l2, n2, d2, v2);
    ExampleName(n1);
    ExampleName(n2);
    EntryGives(l1, n1, d1);
    EntryGives(l2, n2, d2);
    JoinedGives(l1, n1, d1, l2, n2, d2);
    StructuredTwoLines(l1, l2, Skill(n1, v1), Skill(n2, v2));
  }
}

/**
 * Character classes and string helpers shared by the text-side modules:
 * the whitespace handling of `re.sub(r'\s+', ' ', s).strip()` and of
 * `s.replace(/\s+/g, ' ').trim()`, substring search, line splitting,
 * joining, and decimal text.
 */
module Text {
  import opened Wrappers

  /** `\s`: the whitespace characters that Python's `re` and JavaScript agree on. */
  predicate IsSpace(c: char) {
    || c == ' ' || c == '\t' || c == '\n' || c == '\r' || c == '\U{000B}' || c == '\U{000C}'
    || c == '\U{00A0}' || c == '\U{1680}' || ('\U{2000}' <= c <= '\U{200A}')
    || c == '\U{2028}' || c == '\U{2029}' || c == '\U{202F}' || c == '\U{205F}' || c == '\U{3000}'
  }

  /** `[가-힣]`: a precomposed Hangul syllable, U+AC00 to U+D7A3. */
  predicate IsHangul(c: char) {
    '\U{AC00}' <= c <= '\U{D7A3}'
  }

  /** `\d`, restricted to the ASCII digits. */
  predicate IsDigit(c: char) {
    '0' <= c <= '9'
  }

  predicate IsAsciiLetter(c: char) {
    'a' <= c <= 'z' || 'A' <= c <= 'Z'
  }

  predicate AllSpace(s: string) {
    forall i :: 0 <= i < |s| ==> IsSpace(s[i])
  }

  predicate AllDigits(s: string) {
    forall i :: 0 <= i < |s| ==> IsDigit(s[i])
  }

  /** A level as the parser emits it: `+` followed by at least one digit. */
  predicate IsLevel(s: string) {
    |s| >= 2 && s[0] == '+' && AllDigits(s[1..])
  }

  /** `t` occurs in `s` (Python `t in s`, JavaScript `s.includes(t)`). */
  predicate Contains(s: string, t: string) {
    exists i :: 0 <= i <= |s| - |t| && OccursAt(s, t, i)
  }

  predicate OccursAt(s: string, t: string, i: nat) {
    i + |t| <= |s| && s[i..i + |t|] == t
  }

  /** The characters of `s` that are not whitespace, in order. */
  function NonSpace(s: string): string {
    if s == [] then [] else (if IsSpace(s[0]) then [] else [s[0]]) + NonSpace(s[1..])
  }

  // ---------------------------------------------------------------- trimming

  function TrimStart(s: string): (r: string)
    ensures |r| <= |s| && r == s[|s| - |r|..]
    ensures r == [] || !IsSpace(r[0])
    ensures forall i :: 0 <= i < |s| - |r| ==> IsSpace(s[i])
  {
    if s != [] && IsSpace(s[0]) then
      var r := TrimStart(s[1..]);
      assert forall i :: 1 <= i < |s| ==> s[i] == s[1..][i - 1];
      r
    else s
  }

  function TrimEnd(s: string): (r: string)
    ensures |r| <= |s| && r == s[..|r|]
    ensures r == [] || !IsSpace(r[|r| - 1])
    ensures forall i :: |r| <= i < |s| ==> IsSpace(s[i])
  {
    if s != [] && IsSpace(s[|s| - 1]) then
      var r := TrimEnd(s[..|s| - 1]);
      assert forall i :: 0 <= i < |s| - 1 ==> s[i] == s[..|s| - 1][i];
      r
    else s
  }

  /** Python `str.strip()` and JavaScript `String.prototype.trim()`. */
  function Strip(s: string): (r: string)
    ensures r == [] || (!IsSpace(r[0]) && !IsSpace(r[|r| - 1]))
    ensures r == [] <==> AllSpace(s)
    ensures NonSpace(r) == NonSpace(s)
  {
    var t := TrimStart(s);
    var r := TrimEnd(t);
    assert r == [] || r[0] == t[0];
    TrimBothEmpty(s);
    NonSpaceTrimStart(s);
    NonSpaceTrimEnd(t);
    r
  }

  /** Trimming both ends leaves nothing exactly when the text is all whitespace. */
  lemma TrimBothEmpty(s: string)
    ensures TrimEnd(TrimStart(s)) == [] <==> AllSpace(s)
  {
    var t := TrimStart(s);
    var a := |s| - |t|;
    assert t == [] || t[0] == s[a];
    if TrimEnd(t) == [] {
      assert t == [];
    }
  }

  /** The stripped text is a contiguous piece of the input. */
  lemma StripIsSlice(s: string)
    ensures var a := |s| - |TrimStart(s)|;
            a + |Strip(s)| <= |s| && Strip(s) == s[a..a + |Strip(s)|]
  {
  }

  /** `re.sub(r'\s+', ' ', s)`: every maximal run of whitespace becomes one space. */
  function Collapse(s: string): (r: string)
    ensures |r| <= |s|
    ensures r == [] <==> s == []
    ensures r != [] ==> (IsSpace(r[0]) <==> IsSpace(s[0]))
    ensures SingleSpaces(r)
  {
    if s == [] then []
    else if IsSpace(s[0]) then [' '] + Collapse(TrimStart(s[1..]))
    else [s[0]] + Collapse(s[1..])
  }

  /**
   * Spaces occur only as single ' ' characters strictly inside the text:
   * no leading or trailing whitespace and no two whitespace characters in a row.
   */
  predicate Squished(r: string) {
    forall i :: 0 <= i < |r| && IsSpace(r[i]) ==> r[i] == ' ' && 0 < i < |r| - 1 && !IsSpace(r[i + 1])
  }

  /** `re.sub(r'\s+', ' ', s).strip()` and `s.replace(/\s+/g, ' ').trim()`. */
  function Squish(s: string): (r: string)
    ensures Squished(r)
    ensures r == [] <==> AllSpace(s)
    ensures NonSpace(r) == NonSpace(s)
  {
    var c := Collapse(s);
    NonSpaceCollapse(s);
    NonSpaceEmpty(s);
    NonSpaceEmpty(c);
    StripCollapsed(c);
    Strip(c)
  }

  /** Stripping text whose whitespace is already collapsed leaves it squished. */
  lemma StripCollapsed(c: string)
    requires SingleSpaces(c)
    ensures Squished(Strip(c))
  {
    var r := Strip(c);
    var a := |c| - |TrimStart(c)|;
    StripIsSlice(c);
    forall i | 0 <= i < |r| && IsSpace(r[i])
      ensures r[i] == ' ' && 0 < i < |r| - 1 && !IsSpace(r[i + 1])
    {
      assert r[i] == c[a + i];
      if i + 1 < |r| {
        assert r[i + 1] == c[a + i + 1];
      }
    }
  }

  /** Text with no whitespace at either end is its own strip. */
  lemma StripKeeps(s: string)
    requires s == [] || (!IsSpace(s[0]) && !IsSpace(s[|s| - 1]))
    ensures Strip(s) == s
  {
    assert TrimStart(s) == s;
  }

  /** Every whitespace character is a plain space not followed by more whitespace. */
  ghost predicate SingleSpaces(s: string) {
    && (forall i :: 0 <= i < |s| && IsSpace(s[i]) ==> s[i] == ' ')
    && (forall i, j :: 0 <= i < j < |s| && j == i + 1 && IsSpace(s[i]) ==> !IsSpace(s[j]))
  }

  lemma SingleSpacesTail(s: string)
    requires s != [] && SingleSpaces(s)
    ensures SingleSpaces(s[1..])
  {
    var tail := s[1..];
    forall i | 0 <= i < |tail| && IsSpace(tail[i])
      ensures tail[i] == ' ' && (i + 1 < |tail| ==> !IsSpace(tail[i + 1]))
    {
      assert tail[i] == s[i + 1];
      if i + 1 < |tail| {
        assert tail[i + 1] == s[i + 2];
      }
    }
  }

  /** Text whose whitespace is already single plain spaces is its own collapse. */
  lemma {:induction false} CollapseKeeps(s: string)
    requires SingleSpaces(s)
    ensures Collapse(s) == s
  {
    if s != [] {
      var tail := s[1..];
      SingleSpacesTail(s);
      CollapseKeeps(tail);
      if IsSpace(s[0]) {
        assert tail == [] || !IsSpace(tail[0]);
        assert TrimStart(tail) == tail;
      }
      assert s == [s[0]] + tail;
    }
  }

  /** Collapsing and trimming changes nothing in text that is already squished. */
  lemma SquishKeeps(s: string)
    requires Squished(s)
    ensures Squish(s) == s
  {
    CollapseKeeps(s);
    StripKeeps(s);
  }

  // ---------------------------------------------------------------- words

  /** `w` holds no whitespace character. */
  predicate NoSpace(w: string) {
    forall i :: 0 <= i < |w| ==> !IsSpace(w[i])
  }

  /** The length of the leading run of non-whitespace characters. */
  function WordEnd(t: string): (n: nat)
    ensures n <= |t| && NoSpace(t[..n]) && forall i :: 0 <= i < n ==> !IsSpace(t[i])
    ensures n < |t| ==> IsSpace(t[n])
    ensures t != [] && !IsSpace(t[0]) ==> n > 0
  {
    if t != [] && !IsSpace(t[0]) then
      var k := WordEnd(t[1..]);
      assert t[..k + 1] == [t[0]] + t[1..][..k];
      k + 1
    else 0
  }

  /** Python `s.split()`: the maximal runs of non-whitespace characters, in order. */
  function Words(s: string): seq<string>
    decreases |s|
  {
    var t := TrimStart(s);
    if t == [] then []
    else
      var n := WordEnd(t);
      [t[..n]] + Words(t[n..])
  }

  /** Every entry is non-empty and holds no whitespace. */
  predicate AllWords(ws: seq<string>) {
    forall k :: 0 <= k < |ws| ==> ws[k] != [] && NoSpace(ws[k])
  }

  lemma AllWordsCons(w: string, ws: seq<string>)
    requires w != [] && NoSpace(w) && AllWords(ws)
    ensures AllWords([w] + ws)
  {
    var r := [w] + ws;
    forall k | 1 <= k < |r|
      ensures r[k] == ws[k - 1]
    {
    }
  }

  /** Every word is non-empty and holds no whitespace. */
  lemma {:induction false} WordsShape(s: string)
    ensures AllWords(Words(s))
    decreases |s|
  {
    var t := TrimStart(s);
    if t != [] {
      var n := WordEnd(t);
      WordsShape(t[n..]);
      AllWordsCons(t[..n], Words(t[n..]));
    }
  }

  /** Words joined by single spaces: text that neither starts nor ends with whitespace. */
  lemma {:induction false} JoinWordsEnds(ws: seq<string>)
    requires AllWords(ws)
    ensures Join(ws, " ") == [] <==> ws == []
    ensures ws != [] ==> Join(ws, " ")[0] == ws[0][0]
    ensures ws != [] ==> Join(ws, " ")[|Join(ws, " ")| - 1] == ws[|ws| - 1][|ws[|ws| - 1]| - 1]
  {
    if |ws| > 1 {
      JoinWordsEnds(ws[1..]);
      var j := Join(ws[1..], " ");
      assert Join(ws, " ") == ws[0] + " " + j;
    }
  }

  /** A non-space first character is kept as it is. */
  lemma CollapseHead(t: string)
    requires t != [] && !IsSpace(t[0])
    ensures Collapse(t) == [t[0]] + Collapse(t[1..])
  {
  }

  /** A word in front passes through the collapse untouched. */
  lemma {:induction false} CollapseWordPrefix(t: string, n: nat)
    requires n <= |t| && forall i :: 0 <= i < n ==> !IsSpace(t[i])
    ensures Collapse(t) == t[..n] + Collapse(t[n..])
  {
    if n == 0 {
      assert t[..0] == [] && t[0..] == t;
    } else {
      var tail := t[1..];
      forall i | 0 <= i < n - 1
        ensures !IsSpace(tail[i])
      {
        assert tail[i] == t[i + 1];
      }
      CollapseWordPrefix(tail, n - 1);
      CollapseHead(t);
      PrefixStep(t, n, Collapse(tail), Collapse(t[n..]));
    }
  }

  /** Reassociating one step of CollapseWordPrefix. */
  lemma PrefixStep(t: string, n: nat, ct: string, cr: string)
    requires 0 < n <= |t| && ct == t[1..][..n - 1] + cr
    ensures [t[0]] + ct == t[..n] + cr
  {
    assert [t[0]] + t[1..][..n - 1] == t[..n];
  }

  /** One space when the text ends in whitespace, nothing otherwise. */
  function Trail(s: string): string {
    if s != [] && IsSpace(s[|s| - 1]) then " " else []
  }

  /** Text starting with a word collapses to its words joined by single spaces, plus one space for trailing whitespace. */
  lemma {:induction false} CollapseFromWord(t: string)
    requires t == [] || !IsSpace(t[0])
    ensures Collapse(t) == Join(Words(t), " ") + Trail(t)
    decreases |t|, 1
  {
    if t != [] {
      var n := WordEnd(t);
      WordsFromWord(t);
      CollapseWordPrefix(t, n);
      if t[n..] == [] {
        OneWord(t, n);
      } else {
        CollapseWordThenGap(t, n);
      }
    }
  }

  /** A word, then whitespace, then possibly more words. */
  lemma {:induction false} CollapseWordThenGap(t: string, n: nat)
    requires t != [] && !IsSpace(t[0]) && n == WordEnd(t) && t[n..] != []
    requires Collapse(t) == t[..n] + Collapse(t[n..])
    requires Words(t) == [t[..n]] + Words(t[n..])
    ensures Collapse(t) == Join(Words(t), " ") + Trail(t)
    decreases |t|, 0
  {
    var rest := t[n..];
    GapAfterWord(t, n);
    CollapseGap(rest);
    var u := TrimStart(rest);
    if u == [] {
      EmptyWords(u);
      LastWord(Collapse(t), t[..n], Collapse(rest), Words(t), Words(rest), Trail(t));
    } else {
      CollapseFromWord(u);
      WordsNonEmpty(u);
      GapJoin(Collapse(t), t[..n], Collapse(rest), Collapse(u), Words(u), Trail(t), Words(t));
    }
  }

  /** What follows the first word starts with whitespace and ends where the text ends. */
  lemma GapAfterWord(t: string, n: nat)
    requires n == WordEnd(t) && t[n..] != []
    ensures IsSpace(t[n..][0]) && Trail(t[n..]) == Trail(t)
  {
    var rest := t[n..];
    assert rest[0] == t[n];
    TrailSuffix(t, rest);
  }

  /** Empty text has no words and collapses to nothing. */
  lemma EmptyWords(u: string)
    requires u == []
    ensures Words(u) == [] && Collapse(u) == []
  {
  }

  /** A text that is one word collapses to itself. */
  lemma OneWord(t: string, n: nat)
    requires t != [] && n == WordEnd(t) && t[n..] == [] && !IsSpace(t[0])
    requires Collapse(t) == t[..n] + Collapse(t[n..])
    requires Words(t) == [t[..n]] + Words(t[n..])
    ensures Collapse(t) == Join(Words(t), " ") + Trail(t)
  {
    assert t[..n] == t;
    assert Words(t) == [t];
    assert !IsSpace(t[|t| - 1]);
  }

  /** A word followed by whitespace only collapses to the word and one space. */
  lemma LastWord(ct: string, w: string, cr: string, wt: seq<string>, wr: seq<string>, tr: string)
    requires ct == w + cr && cr == " " + [] && wt == [w] + wr && wr == [] && tr == " "
    ensures ct == Join(wt, " ") + tr
  {
    assert wt == [w];
  }

  /** A word, a collapsed gap, and the collapse of the words after it. */
  lemma GapJoin(ct: string, w: string, cr: string, cu: string, ws: seq<string>, tr: string, wt: seq<string>)
    requires ct == w + cr && cr == " " + cu && cu == Join(ws, " ") + tr
    requires wt == [w] + ws && ws != []
    ensures ct == Join(wt, " ") + tr
  {
    JoinCons(w, ws, " ");
    ConcatAssoc(w, " ", Join(ws, " "), tr);
  }

  /** Text starting with a non-space character has a word. */
  lemma WordsNonEmpty(u: string)
    requires u != [] && !IsSpace(u[0])
    ensures Words(u) != []
  {
    assert TrimStart(u) == u;
  }

  /** Text starting with a word splits into that word and the words of the rest. */
  lemma WordsFromWord(t: string)
    requires t != [] && !IsSpace(t[0])
    ensures var n := WordEnd(t); Words(t) == [t[..n]] + Words(t[n..])
  {
    assert TrimStart(t) == t;
  }

  /** A whitespace run collapses to one space before the rest, and holds no word. */
  lemma CollapseGap(rest: string)
    requires rest != [] && IsSpace(rest[0])
    ensures var u := TrimStart(rest);
      && Collapse(rest) == " " + Collapse(u)
      && Words(rest) == Words(u)
      && (u == [] ==> Trail(rest) == " ")
      && (u != [] ==> Trail(u) == Trail(rest) && !IsSpace(u[0]))
  {
    var u := TrimStart(rest);
    assert TrimStart(rest[1..]) == u;
    assert TrimStart(u) == u;
    if u != [] {
      TrailSuffix(rest, u);
    }
  }

  /** A non-empty suffix ends where the text ends. */
  lemma TrailSuffix(t: string, u: string)
    requires u != [] && |u| <= |t| && u == t[|t| - |u|..]
    ensures Trail(u) == Trail(t)
  {
    assert u[|u| - 1] == t[|t| - 1];
  }

  lemma JoinCons(w: string, ws: seq<string>, sep: string)
    requires ws != []
    ensures Join([w] + ws, sep) == w + sep + Join(ws, sep)
  {
    assert ([w] + ws)[1..] == ws;
  }

  lemma ConcatAssoc(a: string, b: string, c: string, d: string)
    ensures a + (b + (c + d)) == (a + b + c) + d
  {
  }

  /**
   * `re.sub(r'\s+', ' ', s)` in terms of the words: all-whitespace text becomes
   * one space; otherwise the words joined by single spaces, with one space in
   * front for leading whitespace and one behind for trailing whitespace.
   */
  lemma CollapseWords(s: string)
    ensures Collapse(s) == if s == [] then []
      else if AllSpace(s) then " "
      else Lead(s) + Join(Words(s), " ") + Trail(s)
  {
    if s != [] {
      if AllSpace(s) {
        CollapseAllSpace(s);
      } else if IsSpace(s[0]) {
        CollapseSpaceFirst(s);
      } else {
        CollapseWordFirst(s);
      }
    }
  }

  lemma CollapseAllSpace(s: string)
    requires s != [] && AllSpace(s)
    ensures Collapse(s) == " "
  {
    assert TrimStart(s[1..]) == [];
    assert Collapse(s) == " " + Collapse([]);
  }

  lemma CollapseSpaceFirst(s: string)
    requires s != [] && IsSpace(s[0]) && !AllSpace(s)
    ensures Collapse(s) == Lead(s) + Join(Words(s), " ") + Trail(s)
  {
    var t := TrimStart(s);
    CollapseGap(s);
    CollapseFromWord(t);
    var ld, j, tr := Lead(s), Join(Words(s), " "), Trail(s);
    assert Collapse(s) == ld + (j + tr);
    ConcatAssoc3(ld, j, tr);
  }

  lemma CollapseWordFirst(s: string)
    requires s != [] && !IsSpace(s[0])
    ensures Collapse(s) == Lead(s) + Join(Words(s), " ") + Trail(s)
  {
    CollapseFromWord(s);
    NoLead(s);
    EmptyFront(Collapse(s), Lead(s), Join(Words(s), " "), Trail(s));
  }

  lemma NoLead(s: string)
    requires s != [] && !IsSpace(s[0])
    ensures Lead(s) == []
  {
  }

  lemma EmptyFront(c: string, ld: string, j: string, tr: string)
    requires c == j + tr && ld == []
    ensures c == ld + j + tr
  {
  }

  /** One space when the text starts with whitespace, nothing otherwise. */
  function Lead(s: string): string {
    if s != [] && IsSpace(s[0]) then " " else []
  }

  /** Whitespace around text with non-space ends is what trimming removes. */
  lemma {:induction false} TrimStartPadded(a: string, x: string)
    requires AllSpace(a) && x != [] && !IsSpace(x[0])
    ensures TrimStart(a + x) == x
  {
    if a == [] {
      assert a + x == x;
    } else {
      assert (a + x)[1..] == a[1..] + x;
      TrimStartPadded(a[1..], x);
    }
  }

  lemma {:induction false} TrimEndPadded(x: string, b: string)
    requires AllSpace(b) && x != [] && !IsSpace(x[|x| - 1])
    ensures TrimEnd(x + b) == x
  {
    if b == [] {
      assert x + b == x;
    } else {
      var b' := b[..|b| - 1];
      assert (x + b)[..|x + b| - 1] == x + b';
      TrimEndPadded(x, b');
    }
  }

  /** `re.sub(r'\s+', ' ', s).strip()` is `' '.join(s.split())`: the words joined by single spaces. */
  lemma SquishWords(s: string)
    ensures Squish(s) == Join(Words(s), " ")
  {
    var ws := Words(s);
    var j := Join(ws, " ");
    WordsShape(s);
    JoinWordsEnds(ws);
    CollapseWords(s);
    if s == [] || AllSpace(s) {
      assert TrimStart(s) == [];
    } else {
      assert ws != [] by { assert TrimStart(s) != []; }
      var ld, tr := Lead(s), Trail(s);
      LeadTrailSpace(s);
      ConcatAssoc3(ld, j, tr);
      var c := ld + (j + tr);
      assert Collapse(s) == c;
      assert !IsSpace(j[0]) && !IsSpace(j[|j| - 1]);
      assert (j + tr)[0] == j[0];
      TrimStartPadded(ld, j + tr);
      TrimEndPadded(j, tr);
      assert Strip(c) == j;
    }
  }

  lemma LeadTrailSpace(s: string)
    ensures AllSpace(Lead(s)) && AllSpace(Trail(s))
  {
  }

  lemma ConcatAssoc3(a: string, b: string, c: string)
    ensures a + (b + c) == a + b + c
  {
  }

  /** Python `s.replace(' ', '')`: drops the plain space only. */
  function RemoveSpaces(s: string): (r: string)
    ensures ' ' !in r
    ensures |r| <= |s|
  {
    if s == [] then [] else (if s[0] == ' ' then [] else [s[0]]) + RemoveSpaces(s[1..])
  }

  /** Exactly the spaces go: every other character keeps its count. */
  lemma {:induction false} RemoveSpacesCount(s: string)
    ensures |RemoveSpaces(s)| == |s| - multiset(s)[' ']
    ensures forall c :: c != ' ' ==> multiset(RemoveSpaces(s))[c] == multiset(s)[c]
  {
    if s != [] {
      RemoveSpacesCount(s[1..]);
      assert s == [s[0]] + s[1..];
    }
  }

  /** Dropping the spaces works piece by piece, so the kept characters stay in order. */
  lemma {:induction false} RemoveSpacesAppend(a: string, b: string)
    ensures RemoveSpaces(a + b) == RemoveSpaces(a) + RemoveSpaces(b)
  {
    if a == [] {
      assert a + b == b;
    } else {
      assert (a + b)[0] == a[0] && (a + b)[1..] == a[1..] + b;
      RemoveSpacesAppend(a[1..], b);
    }
  }

  /** A single character is dropped exactly when it is the plain space. */
  lemma RemoveSpacesChar(c: char)
    ensures RemoveSpaces([c]) == if c == ' ' then [] else [c]
  {
    assert [c][1..] == [];
  }

  // ---------------------------------------------------------------- NonSpace facts

  lemma {:induction false} NonSpaceAppend(a: string, b: string)
    ensures NonSpace(a + b) == NonSpace(a) + NonSpace(b)
  {
    if a != [] {
      var h := if IsSpace(a[0]) then [] else [a[0]];
      assert (a + b)[0] == a[0];
      assert (a + b)[1..] == a[1..] + b;
      NonSpaceAppend(a[1..], b);
      calc {
        NonSpace(a + b);
        h + NonSpace(a[1..] + b);
        h + (NonSpace(a[1..]) + NonSpace(b));
        (h + NonSpace(a[1..])) + NonSpace(b);
        NonSpace(a) + NonSpace(b);
      }
    } else {
      assert a + b == b;
    }
  }

  lemma {:induction false} NonSpaceEmpty(s: string)
    ensures NonSpace(s) == [] <==> AllSpace(s)
  {
    if s != [] {
      NonSpaceEmpty(s[1..]);
      if !IsSpace(s[0]) {
        assert NonSpace(s)[0] == s[0];
      }
    }
  }

  lemma {:induction false} NonSpaceTrimStart(s: string)
    ensures NonSpace(TrimStart(s)) == NonSpace(s)
  {
    if s != [] && IsSpace(s[0]) {
      NonSpaceTrimStart(s[1..]);
    }
  }

  lemma {:induction false} NonSpaceTrimEnd(s: string)
    ensures NonSpace(TrimEnd(s)) == NonSpace(s)
  {
    if s != [] && IsSpace(s[|s| - 1]) {
      var p := s[..|s| - 1];
      NonSpaceTrimEnd(p);
      assert s == p + [s[|s| - 1]];
      NonSpaceAppend(p, [s[|s| - 1]]);
      assert NonSpace([s[|s| - 1]]) == [];
    }
  }

  lemma {:induction false} NonSpaceCollapse(s: string)
    ensures NonSpace(Collapse(s)) == NonSpace(s)
  {
    if s != [] {
      if IsSpace(s[0]) {
        var t := TrimStart(s[1..]);
        NonSpaceCollapse(t);
        NonSpaceTrimStart(s[1..]);
        NonSpaceCons(' ', Collapse(t));
      } else {
        NonSpaceCollapse(s[1..]);
        NonSpaceCons(s[0], Collapse(s[1..]));
      }
    }
  }

  /** The non-space characters of `[x] + c`: `x` itself unless it is whitespace, then those of `c`. */
  lemma NonSpaceCons(x: char, c: string)
    ensures NonSpace([x] + c) == (if IsSpace(x) then [] else [x]) + NonSpace(c)
  {
    assert ([x] + c)[1..] == c;
  }

  // ---------------------------------------------------------------- lines

  /** Python `s.split(sep)` for a one-character separator: always at least one part. */
  function Split(s: string, sep: char): (parts: seq<string>)
    ensures |parts| >= 1
    ensures forall k :: 0 <= k < |parts| ==> sep !in parts[k]
  {
    if s == [] then [[]]
    else
      var rest := Split(s[1..], sep);
      if s[0] == sep then [[]] + rest else [[s[0]] + rest[0]] + rest[1..]
  }

  /** `parts.join(sep)` / `sep.join(parts)`. */
  function Join(parts: seq<string>, sep: string): string {
    if |parts| == 0 then []
    else if |parts| == 1 then parts[0]
    else parts[0] + sep + Join(parts[1..], sep)
  }

  /** Splitting and joining again on the same separator gives the text back. */
  lemma {:induction false} JoinSplit(s: string, sep: char)
    ensures Join(Split(s, sep), [sep]) == s
  {
    if s != [] {
      var rest := Split(s[1..], sep);
      JoinSplit(s[1..], sep);
      if s[0] == sep {
        assert Split(s, sep)[1..] == rest;
      } else {
        var parts := Split(s, sep);
        assert parts[1..] == rest[1..];
        if |rest| == 1 {
          assert parts == [[s[0]] + rest[0]];
        } else {
          assert Join(rest, [sep]) == rest[0] + [sep] + Join(rest[1..], [sep]);
          assert rest[1..][1..] == rest[2..];
        }
      }
    }
  }

  // ---------------------------------------------------------------- decimal text

  function DigitChar(d: nat): (c: char)
    requires d < 10
    ensures IsDigit(c)
  {
    ['0', '1', '2', '3', '4', '5', '6', '7', '8', '9'][d]
  }

  function DigitValue(c: char): nat
    requires IsDigit(c)
  {
    (c as int - '0' as int) as nat
  }

  /** The value of a run of decimal digits, most significant first. */
  function DecimalValue(s: string): nat
    requires AllDigits(s)
  {
    if s == [] then 0 else DecimalValue(s[..|s| - 1]) * 10 + DigitValue(s[|s| - 1])
  }

  /** JavaScript's `String(n)` and string concatenation of a non-negative integer. */
  function NatToString(n: nat): (s: string)
    ensures s != [] && AllDigits(s)
    ensures DecimalValue(s) == n
  {
    if n < 10 then
      assert DecimalValue([DigitChar(n)]) == DecimalValue([]) * 10 + DigitValue(DigitChar(n));
      [DigitChar(n)]
    else
      var p := NatToString(n / 10);
      var s := p + [DigitChar(n % 10)];
      assert s[..|s| - 1] == p;
      s
  }

  /** The number of digit characters at the start of `s`. */
  function DigitRun(s: string): (n: nat)
    ensures n <= |s| && AllDigits(s[..n])
    ensures n < |s| ==> !IsDigit(s[n])
  {
    if s != [] && IsDigit(s[0]) then
      var k := DigitRun(s[1..]);
      assert s[..k + 1] == [s[0]] + s[1..][..k];
      k + 1
    else 0
  }

  predicate IsHexDigit(c: char) {
    IsDigit(c) || 'a' <= c <= 'f' || 'A' <= c <= 'F'
  }

  function HexDigitValue(c: char): nat
    requires IsHexDigit(c)
  {
    if IsDigit(c) then DigitValue(c)
    else if 'a' <= c <= 'f' then (c as int - 'a' as int + 10) as nat
    else (c as int - 'A' as int + 10) as nat
  }

  function HexRun(s: string): (n: nat)
    ensures n <= |s| && forall i :: 0 <= i < n ==> IsHexDigit(s[i])
  {
    if s != [] && IsHexDigit(s[0]) then HexRun(s[1..]) + 1 else 0
  }

  function HexValue(s: string): nat
    requires forall i :: 0 <= i < |s| ==> IsHexDigit(s[i])
  {
    if s == [] then 0 else HexValue(s[..|s| - 1]) * 16 + HexDigitValue(s[|s| - 1])
  }

  /**
   * JavaScript `parseInt(s)` without a radix: leading whitespace, an optional
   * sign, a `0x`/`0X` prefix selecting base 16, then the longest run of digits.
   * `None` stands for `NaN` (no digit at all).
   */
  function ParseInt(s: string): (r: Option<int>)
    ensures var t := TrimStart(s);
      (t == [] || !(IsDigit(t[0]) || t[0] == '-' || t[0] == '+')) ==> r.None?
  {
    var t := TrimStart(s);
    var neg := t != [] && t[0] == '-';
    var body := if t != [] && (t[0] == '-' || t[0] == '+') then t[1..] else t;
    match Magnitude(body)
    case None => None
    case Some(m) => Some(if neg then -(m as int) else m as int)
  }

  /** The unsigned part of `parseInt`: hexadecimal after `0x`, decimal otherwise. */
  function Magnitude(body: string): Option<nat> {
    if |body| >= 2 && body[0] == '0' && (body[1] == 'x' || body[1] == 'X') then
      var n := HexRun(body[2..]);
      if n == 0 then None else Some(HexValue(body[2..][..n]))
    else
      var n := DigitRun(body);
      if n == 0 then None else Some(DecimalValue(body[..n]))
  }

  /** Decimal text of a number reads back as that number. */
  lemma ParseIntNatToString(n: nat)
    ensures ParseInt(NatToString(n)) == Some(n)
  {
    ParseIntDigits(NatToString(n));
  }

  /** A run of decimal digits parses as its decimal value. */
  lemma ParseIntDigits(s: string)
    requires s != [] && AllDigits(s)
    ensures ParseInt(s) == Some(DecimalValue(s))
  {
    TrimStartKeeps(s);
    MagnitudeDigits(s);
  }

  /**
   * `parseInt` reads the leading digit run and ignores what follows it
   * (`parseInt("12px") == 12`); only a lone `0` before an `x` would switch to
   * hexadecimal.
   */
  lemma ParseIntStopsAtNonDigit(s: string, n: nat)
    requires 0 < n <= |s| && AllDigits(s[..n]) && (n == |s| || !IsDigit(s[n]))
    requires !(n == 1 && s[0] == '0' && 1 < |s| && (s[1] == 'x' || s[1] == 'X'))
    ensures ParseInt(s) == Some(DecimalValue(s[..n]))
  {
    assert IsDigit(s[..n][0]);
    TrimStartNonSpace(s);
    assert |s| >= 2 && s[0] == '0' ==> s[1] != 'x' && s[1] != 'X' by {
      if n >= 2 {
        assert IsDigit(s[..n][1]);
      }
    }
    DigitRunIs(s, n);
  }

  /** A minus sign in front of a digit run negates its value. */
  lemma ParseIntNegative(s: string)
    requires |s| >= 2 && s[0] == '-' && AllDigits(s[1..])
    ensures ParseInt(s) == Some(-(DecimalValue(s[1..]) as int))
  {
    TrimStartNonSpace(s);
    MagnitudeDigits(s[1..]);
  }

  lemma {:induction false} DigitRunIs(s: string, n: nat)
    requires n <= |s| && AllDigits(s[..n]) && (n == |s| || !IsDigit(s[n]))
    ensures DigitRun(s) == n
  {
    if n > 0 {
      assert IsDigit(s[..n][0]);
      assert s[1..][..n - 1] == s[..n][1..];
      DigitRunIs(s[1..], n - 1);
    }
  }


  lemma TrimStartNonSpace(s: string)
    requires s != [] && !IsSpace(s[0])
    ensures TrimStart(s) == s
  {
  }

  lemma TrimStartKeeps(s: string)
    requires s != [] && IsDigit(s[0])
    ensures TrimStart(s) == s
  {
    assert !IsSpace(s[0]);
  }

  /** A run of decimal digits has its decimal value as magnitude. */
  lemma MagnitudeDigits(s: string)
    requires s != [] && AllDigits(s)
    ensures Magnitude(s) == Some(DecimalValue(s))
  {
    assert !(|s| >= 2 && s[0] == '0' && (s[1] == 'x' || s[1] == 'X')) by {
      assert |s| >= 2 ==> IsDigit(s[1]);
    }
    DigitRunAll(s);
    assert s[..|s|] == s;
  }

  lemma {:induction false} DigitRunAll(s: string)
    requires AllDigits(s)
    ensures DigitRun(s) == |s|
  {
    if s != [] {
      DigitRunAll(s[1..]);
    }
  }

  // ---------------------------------------------------------------- sequences

  /** The position at which `x` first occurs in `xs`. */
  function FirstIndex(xs: seq<string>, x: string): (i: nat)
    requires x in xs
    ensures i < |xs| && xs[i] == x && x !in xs[..i]
  {
    if xs[0] == x then 0
    else
      assert xs == [xs[0]] + xs[1..];
      var j := FirstIndex(xs[1..], x);
      assert xs[..j + 1] == [xs[0]] + xs[1..][..j];
      j + 1
  }

  /** Searching past a different first element counts one further. */
  lemma FirstIndexTail(xs: seq<string>, x: string)
    requires xs != [] && x in xs && xs[0] != x
    ensures x in xs[1..] && FirstIndex(xs, x) == FirstIndex(xs[1..], x) + 1
  {
    assert xs == [xs[0]] + xs[1..];
  }

  /** `a` is `b` with some elements left out and the rest in their order. */
  predicate Subsequence<T(==)>(a: seq<T>, b: seq<T>)
    decreases |b|
  {
    a == [] || (b != [] && ((a[0] == b[0] && Subsequence(a[1..], b[1..])) || Subsequence(a, b[1..])))
  }

  lemma {:induction false} SubsequenceRefl<T>(a: seq<T>)
    ensures Subsequence(a, a)
  {
    if a != [] {
      SubsequenceRefl(a[1..]);
    }
  }

  lemma {:induction false} SubsequenceTrans<T>(a: seq<T>, b: seq<T>, c: seq<T>)
    requires Subsequence(a, b) && Subsequence(b, c)
    ensures Subsequence(a, c)
    decreases |c|
  {
    if a != [] {
      if Subsequence(b, c[1..]) {
        SubsequenceTrans(a, b, c[1..]);
      } else if a[0] == b[0] && Subsequence(a[1..], b[1..]) {
        SubsequenceTrans(a[1..], b[1..], c[1..]);
      } else {
        SubsequenceTrans(a, b[1..], c[1..]);
      }
    }
  }
}

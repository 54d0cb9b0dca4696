/**
  The three regular expressions the tool edits configuration text with,
  `LAST_PORT\s*=\s*\d+`, `PORT\s*=\s*\d+` and `EXPOSE\s*\d+`, and
  `String.prototype.replace` with such a (non-global) pattern: only the
  leftmost match is replaced.

  Each pattern is a keyword, white space, an optional `=` followed by more
  white space, and one or more digits. Because the keyword's neighbours
  (`=`, a digit) are never white space, the greedy `\s*` runs can only end
  where the white space ends, so a match at a given start is unique and
  its digit run is the longest one; `MatchAt` computes it that way.
*/
module KeyMatch {
  import opened Wrappers
  import opened Text

  /** `KEY\s*=\s*\d+` when `withEquals`, otherwise `KEY\s*\d+`. */
  datatype Pattern = Pattern(key: string, withEquals: bool)

  const LastPortKey: Pattern := Pattern("LAST_PORT", true)
  const PortKey: Pattern := Pattern("PORT", true)
  const ExposeKey: Pattern := Pattern("EXPOSE", false)

  /** A match: the keyword starts at `start`, the digit run is `digits..end`. */
  datatype Match = Match(start: nat, digits: nat, end: nat)

  /** What may stand between the keyword and the digits. */
  ghost predicate Separator(pat: Pattern, t: string)
  {
    if pat.withEquals then
      exists x :: 0 <= x < |t| && t[x] == '=' && AllSpace(t[..x]) && AllSpace(t[x + 1..])
    else AllSpace(t)
  }

  /** The text `s[p..e]` is a match of `pat`, with its digits in `s[d..e]`. */
  ghost predicate MatchesAt(pat: Pattern, s: string, p: nat, d: nat, e: nat)
  {
    && p + |pat.key| <= d < e <= |s|
    && s[p..p + |pat.key|] == pat.key
    && Separator(pat, s[p + |pat.key|..d])
    && AllDigits(s[d..e])
  }

  /** The match that starts at `p`, with the longest digit run, if there is one. */
  function MatchAt(pat: Pattern, s: string, p: nat): (r: Option<Match>)
    ensures r.Some? ==>
      && r.value.start == p
      && MatchesAt(pat, s, p, r.value.digits, r.value.end)
      && (r.value.end == |s| || !IsDigit(s[r.value.end]))
  {
    var k := |pat.key|;
    if p + k <= |s| && s[p..p + k] == pat.key then
      match SeparatorEnd(pat, s, p + k)
      case None => None
      case Some(q) => DigitsAfter(pat, s, p, q)
    else None
  }

  /** Where the separator that starts at `q` ends: after the greedy white-space runs. */
  function SeparatorEnd(pat: Pattern, s: string, q: nat): (r: Option<nat>)
    requires q <= |s|
    ensures r.Some? ==> q <= r.value <= |s| && Separator(pat, s[q..r.value])
  {
    var e1 := RunEnd(s, q, IsSpace);
    if !pat.withEquals then
      assert AllSpace(s[q..e1]);
      Some(e1)
    else if e1 < |s| && s[e1] == '=' then
      var e2 := RunEnd(s, e1 + 1, IsSpace);
      SeparatorFromRuns(pat, s, q, e1, e2);
      Some(e2)
    else None
  }

  lemma SeparatorFromRuns(pat: Pattern, s: string, q: nat, e1: nat, e2: nat)
    requires pat.withEquals
    requires q <= e1 < e2 <= |s| && s[e1] == '='
    requires forall i :: q <= i < e1 ==> IsSpace(s[i])
    requires forall i :: e1 < i < e2 ==> IsSpace(s[i])
    ensures Separator(pat, s[q..e2])
  {
    var t := s[q..e2];
    var x := e1 - q;
    assert t[x] == '=';
    assert AllSpace(t[..x]);
    assert AllSpace(t[x + 1..]);
  }

  /** A separator followed by a digit is exactly the one `SeparatorEnd` finds. */
  lemma SeparatorEndExact(pat: Pattern, s: string, q: nat, d: nat)
    requires q <= d < |s| && IsDigit(s[d])
    requires Separator(pat, s[q..d])
    ensures SeparatorEnd(pat, s, q) == Some(d)
  {
    var t := s[q..d];
    if pat.withEquals {
      var x :| 0 <= x < |t| && t[x] == '=' && AllSpace(t[..x]) && AllSpace(t[x + 1..]);
      assert t[..x] == s[q..q + x];
      assert t[x + 1..] == s[q + x + 1..d];
      SeparatorEndAround(pat, s, q, q + x, d);
    } else {
      SpaceRun(s, q, d);
      SeparatorEndOfRuns(pat, s, q, d, d);
    }
  }

  lemma SeparatorEndAround(pat: Pattern, s: string, q: nat, y: nat, d: nat)
    requires pat.withEquals
    requires q <= y < d < |s| && IsDigit(s[d]) && s[y] == '='
    requires AllSpace(s[q..y]) && AllSpace(s[y + 1..d])
    ensures SeparatorEnd(pat, s, q) == Some(d)
  {
    SpaceRun(s, q, y);
    SpaceRun(s, y + 1, d);
    SeparatorEndOfRuns(pat, s, q, y, d);
  }

  /** A white-space slice that stops at a non-space is the greedy `\s*` run. */
  lemma SpaceRun(s: string, p: nat, x: nat)
    requires p <= x <= |s| && AllSpace(s[p..x])
    requires x == |s| || !IsSpace(s[x])
    ensures RunEnd(s, p, IsSpace) == x
  {
    forall i | p <= i < x ensures IsSpace(s[i]) {
      assert s[i] == s[p..x][i - p];
    }
    RunEndExact(s, p, x, IsSpace);
  }

  /** `SeparatorEnd` in terms of the white-space runs it scans. */
  lemma SeparatorEndOfRuns(pat: Pattern, s: string, q: nat, e1: nat, e2: nat)
    requires q <= e1 <= e2 <= |s| && RunEnd(s, q, IsSpace) == e1
    requires pat.withEquals ==> e1 < e2 && s[e1] == '=' && RunEnd(s, e1 + 1, IsSpace) == e2
    requires !pat.withEquals ==> e1 == e2
    ensures SeparatorEnd(pat, s, q) == Some(e2)
  {
  }

  function DigitsAfter(pat: Pattern, s: string, p: nat, q: nat): (r: Option<Match>)
    requires p + |pat.key| <= q <= |s|
    requires s[p..p + |pat.key|] == pat.key
    requires Separator(pat, s[p + |pat.key|..q])
    ensures r.Some? ==>
      && r.value.start == p
      && MatchesAt(pat, s, p, r.value.digits, r.value.end)
      && (r.value.end == |s| || !IsDigit(s[r.value.end]))
  {
    var e := RunEnd(s, q, IsDigit);
    if e > q then
      assert AllDigits(s[q..e]);
      Some(Match(p, q, e))
    else None
  }

  /** Every character of a separator is white space or `=`. */
  lemma SeparatorChars(pat: Pattern, t: string)
    requires Separator(pat, t)
    ensures forall i :: 0 <= i < |t| ==> IsSpace(t[i]) || t[i] == '='
  {
    if pat.withEquals {
      var x :| 0 <= x < |t| && t[x] == '=' && AllSpace(t[..x]) && AllSpace(t[x + 1..]);
      forall i | 0 <= i < |t| ensures IsSpace(t[i]) || t[i] == '=' {
        if i < x { assert t[i] == t[..x][i]; }
        else if i > x { assert t[i] == t[x + 1..][i - x - 1]; }
      }
    }
  }

  /**
    Any way of matching the pattern at `p` is the one `MatchAt` finds: the
    digit run starts at the same place, and it ends at the same place when
    it cannot be extended.
  */
  lemma MatchAtExact(pat: Pattern, s: string, p: nat, d: nat, e: nat)
    requires MatchesAt(pat, s, p, d, e)
    ensures MatchAt(pat, s, p).Some?
    ensures MatchAt(pat, s, p).value.digits == d
    ensures e <= MatchAt(pat, s, p).value.end
    ensures e == |s| || !IsDigit(s[e]) ==> MatchAt(pat, s, p) == Some(Match(p, d, e))
  {
    var k := |pat.key|;
    SeparatorEndExact(pat, s, p + k, d);
    assert MatchAt(pat, s, p) == DigitsAfter(pat, s, p, d);
    DigitsAfterExact(pat, s, p, d, e);
  }

  lemma DigitsAfterExact(pat: Pattern, s: string, p: nat, d: nat, e: nat)
    requires MatchesAt(pat, s, p, d, e)
    ensures DigitsAfter(pat, s, p, d).Some?
    ensures DigitsAfter(pat, s, p, d).value.digits == d
    ensures e <= DigitsAfter(pat, s, p, d).value.end
    ensures e == |s| || !IsDigit(s[e]) ==> DigitsAfter(pat, s, p, d).value.end == e
  {
    forall q | d <= q < e ensures IsDigit(s[q]) {
      assert s[q] == s[d..e][q - d];
    }
    RunEndAtLeast(s, d, e, IsDigit);
    if e == |s| || !IsDigit(s[e]) {
      RunEndExact(s, d, e, IsDigit);
    }
  }

  lemma RunEndAtLeast(s: string, p: nat, x: nat, f: char -> bool)
    requires p <= x <= |s|
    requires forall q :: p <= q < x ==> f(s[q])
    ensures x <= RunEnd(s, p, f)
    decreases x - p
  {
    if p < x {
      RunEndAtLeast(s, p + 1, x, f);
    }
  }

  /** A match only depends on the text up to its end. */
  lemma MatchesAtPrefix(pat: Pattern, s: string, t: string, p: nat, d: nat, e: nat)
    requires MatchesAt(pat, s, p, d, e)
    requires e <= |t| && s[..e] == t[..e]
    ensures MatchesAt(pat, t, p, d, e)
  {
    var k := |pat.key|;
    assert s[p..p + k] == s[..e][p..p + k] == t[..e][p..p + k] == t[p..p + k];
    assert s[p + k..d] == s[..e][p + k..d] == t[..e][p + k..d] == t[p + k..d];
    assert s[d..e] == s[..e][d..e] == t[..e][d..e] == t[d..e];
  }

  lemma SliceOfPiece(s: string, off: nat, x: string, a: nat, b: nat)
    requires off + |x| <= |s| && s[off..off + |x|] == x
    requires a <= b <= |x|
    ensures x[a..b] == s[off + a..off + b]
  {
    forall i | 0 <= i < b - a ensures x[a..b][i] == s[off + a..off + b][i] {
      assert x[a + i] == s[off..off + |x|][a + i];
    }
  }

  /** A match inside a piece `x` of a text `s` is a match of `s`, shifted by the piece's offset. */
  lemma MatchesAtShift(pat: Pattern, s: string, off: nat, x: string, p: nat, d: nat, e: nat)
    requires off + |x| <= |s| && s[off..off + |x|] == x
    requires MatchesAt(pat, x, p, d, e)
    ensures MatchesAt(pat, s, off + p, off + d, off + e)
  {
    var k := |pat.key|;
    SliceOfPiece(s, off, x, p, p + k);
    SliceOfPiece(s, off, x, p + k, d);
    SliceOfPiece(s, off, x, d, e);
  }

  /** ... and a match of `s` that lies inside the piece is a match of the piece, at `a`, `d`, `e`. */
  lemma MatchesAtUnshift(pat: Pattern, s: string, off: nat, x: string, p: nat, d: nat, e: nat, a: nat, d': nat, e': nat)
    requires off + |x| <= |s| && s[off..off + |x|] == x
    requires off <= p && e <= off + |x|
    requires MatchesAt(pat, s, p, d, e)
    requires a == p - off && d' == d - off && e' == e - off
    ensures MatchesAt(pat, x, a, d', e')
  {
    var k := |pat.key|;
    SliceOfPiece(s, off, x, a, a + k);
    SliceOfPiece(s, off, x, a + k, d');
    SliceOfPiece(s, off, x, d', e');
  }

  /**
    A character that is not white space, not `=`, not a digit and not any
    keyword character after the first cannot lie inside a match that
    starts before it.
  */
  lemma MatchStopsAt(pat: Pattern, t: string, q: nat, d: nat, e: nat, a: nat)
    requires MatchesAt(pat, t, q, d, e)
    requires q < a < |t|
    requires !IsSpace(t[a]) && t[a] != '=' && !IsDigit(t[a])
    requires forall x :: 0 < x < |pat.key| ==> pat.key[x] != t[a]
    ensures e <= a
  {
    var k := |pat.key|;
    SeparatorChars(pat, t[q + k..d]);
    forall y | q <= y < q + k ensures t[y] == pat.key[y - q] {
      assert t[y] == t[q..q + k][y - q];
    }
    forall y | q + k <= y < d ensures IsSpace(t[y]) || t[y] == '=' {
      assert t[y] == t[q + k..d][y - q - k];
    }
    forall y | d <= y < e ensures IsDigit(t[y]) {
      assert t[y] == t[d..e][y - d];
    }
  }

  /** The leftmost match at or after `from`. */
  function FirstMatch(pat: Pattern, s: string, from: nat): (r: Option<Match>)
    requires from <= |s|
    ensures r.Some? ==>
      && from <= r.value.start
      && MatchAt(pat, s, r.value.start) == r
      && forall q :: from <= q < r.value.start ==> MatchAt(pat, s, q).None?
    ensures r.None? ==> forall q :: from <= q ==> MatchAt(pat, s, q).None?
    decreases |s| - from
  {
    if MatchAt(pat, s, from).Some? then MatchAt(pat, s, from)
    else if from == |s| then
      assert forall q :: from <= q ==> MatchAt(pat, s, q).None? by {
        forall q | from <= q ensures MatchAt(pat, s, q).None? {
          if q > from { assert q + |pat.key| > |s|; }
        }
      }
      None
    else FirstMatch(pat, s, from + 1)
  }

  /** `m` is the match the regular-expression engine reports: no match starts earlier. */
  ghost predicate IsLeftmost(pat: Pattern, s: string, m: Match)
  {
    && m.start <= m.digits < m.end <= |s|
    && MatchAt(pat, s, m.start) == Some(m)
    && forall q: nat :: q < m.start ==> MatchAt(pat, s, q).None?
  }

  function Leftmost(pat: Pattern, s: string): (r: Option<Match>)
    ensures r.Some? ==> IsLeftmost(pat, s, r.value)
    ensures r.None? ==> forall q :: MatchAt(pat, s, q).None?
  {
    FirstMatch(pat, s, 0)
  }

  /** The leftmost match is unique. */
  lemma LeftmostIs(pat: Pattern, s: string, m: Match)
    requires IsLeftmost(pat, s, m)
    ensures Leftmost(pat, s) == Some(m)
  {
    var r := Leftmost(pat, s);
    assert MatchAt(pat, s, m.start).Some?;
    assert r.Some?;
    assert !(r.value.start < m.start);
    assert !(m.start < r.value.start);
  }

  /**
    `s.replace(pattern, repl)` for a non-global pattern: the leftmost
    match is replaced by `repl`; with no match the text is returned as is.
  */
  function ReplaceFirst(pat: Pattern, s: string, repl: string): (r: string)
    ensures (forall q :: MatchAt(pat, s, q).None?) ==> r == s
    ensures forall m :: IsLeftmost(pat, s, m) ==> r == s[..m.start] + repl + s[m.end..]
  {
    match Leftmost(pat, s)
    case None => s
    case Some(m) =>
      assert forall m' :: IsLeftmost(pat, s, m') ==> m' == m by {
        forall m' | IsLeftmost(pat, s, m') ensures m' == m {
          LeftmostIs(pat, s, m');
        }
      }
      s[..m.start] + repl + s[m.end..]
  }

  /** Replacement leaves the text before the match and the text after it untouched. */
  lemma ReplaceKeepsContext(pat: Pattern, s: string, repl: string, m: Match)
    requires IsLeftmost(pat, s, m)
    ensures var r := ReplaceFirst(pat, s, repl);
            && |r| == |s| - (m.end - m.start) + |repl|
            && r[..m.start] == s[..m.start]
            && r[m.start..m.start + |repl|] == repl
            && r[m.start + |repl|..] == s[m.end..]
  {
    var r := ReplaceFirst(pat, s, repl);
    var before, after := s[..m.start], s[m.end..];
    assert r == before + repl + after;
    assert r[..m.start] == before;
    assert r[m.start..m.start + |repl|] == repl;
    assert r[m.start + |repl|..] == after;
  }

  /** The first character of the keyword occurs nowhere else in it. */
  predicate KeyHeadUnique(pat: Pattern)
  {
    |pat.key| > 0 && forall x :: 0 < x < |pat.key| ==> pat.key[x] != pat.key[0]
  }

  /** The text `KEY = <digits>` that the tool writes in place of a match. */
  function Assignment(pat: Pattern, digits: string): string
  {
    pat.key + " = " + digits
  }

  /**
    Replacing the leftmost match by `KEY = <digits>` leaves a text whose
    leftmost match is exactly the written assignment, with `digits` as its
    digit run: nothing earlier starts to match, and the digits cannot run
    on into what follows.
  */
  lemma AssignmentIsLeftmost(pat: Pattern, s: string, m: Match, digits: string, d: nat, e: nat)
    requires pat.withEquals && KeyHeadUnique(pat)
    requires !IsSpace(pat.key[0]) && pat.key[0] != '=' && !IsDigit(pat.key[0])
    requires IsLeftmost(pat, s, m)
    requires |digits| > 0 && AllDigits(digits)
    requires d == m.start + |pat.key| + 3 && e == m.start + |Assignment(pat, digits)|
    ensures IsLeftmost(pat, s[..m.start] + Assignment(pat, digits) + s[m.end..], Match(m.start, d, e))
  {
    var i := m.start;
    var repl := Assignment(pat, digits);
    var s' := s[..i] + repl + s[m.end..];
    AssignmentMatches(pat, s[..i], digits, s[m.end..], i, d, e);
    assert s'[i] == pat.key[0] by { assert s'[i] == repl[0]; }
    assert s'[..i] == s[..i];
    forall q: nat | q < i ensures MatchAt(pat, s', q).None? {
      NoMatchBeforeEdit(pat, s, s', q, i);
    }
  }

  /** The written assignment, followed by anything but a digit, is a match of its own. */
  lemma AssignmentMatches(pat: Pattern, before: string, digits: string, after: string, i: nat, d: nat, e: nat)
    requires pat.withEquals
    requires |digits| > 0 && AllDigits(digits)
    requires after == [] || !IsDigit(after[0])
    requires i == |before| && d == i + |pat.key| + 3 && e == i + |Assignment(pat, digits)|
    ensures MatchAt(pat, before + Assignment(pat, digits) + after, i) == Some(Match(i, d, e))
  {
    var k := |pat.key|;
    var repl := Assignment(pat, digits);
    var s' := before + repl + after;
    ConcatMiddle(before, repl, after, 0, k);
    assert repl[..k] == pat.key;
    ConcatMiddle(before, repl, after, k, k + 3);
    assert repl[k..k + 3] == " = ";
    ConcatMiddle(before, repl, after, k + 3, |repl|);
    assert repl[k + 3..] == digits;
    assert Separator(pat, s'[i + k..d]) by {
      var t := s'[i + k..d];
      assert t[1] == '=' && AllSpace(t[..1]) && AllSpace(t[2..]);
    }
    assert MatchesAt(pat, s', i, d, e);
    assert e == |s'| || !IsDigit(s'[e]) by {
      if e < |s'| { assert s'[e] == after[0]; }
    }
    MatchAtExact(pat, s', i, d, e);
  }

  lemma ConcatMiddle(a: string, b: string, c: string, x: nat, y: nat)
    requires x <= y <= |b|
    ensures (a + b + c)[|a| + x..|a| + y] == b[x..y]
  {
    var s := a + b + c;
    forall j | 0 <= j < y - x ensures s[|a| + x..|a| + y][j] == b[x..y][j] {
      assert s[|a| + x + j] == b[x + j];
    }
  }

  /** No match starts before `i` in `s'` when none does in `s` and the two agree up to a stopper at `i`. */
  lemma NoMatchBeforeEdit(pat: Pattern, s: string, s': string, q: nat, i: nat)
    requires KeyHeadUnique(pat)
    requires !IsSpace(pat.key[0]) && pat.key[0] != '=' && !IsDigit(pat.key[0])
    requires q < i < |s'| && i <= |s| && s'[..i] == s[..i] && s'[i] == pat.key[0]
    requires MatchAt(pat, s, q).None?
    ensures MatchAt(pat, s', q).None?
  {
    var r := MatchAt(pat, s', q);
    if r.Some? {
      MatchStopsAt(pat, s', q, r.value.digits, r.value.end, i);
      assert s'[..r.value.end] == s[..r.value.end];
      MatchesAtPrefix(pat, s', s, q, r.value.digits, r.value.end);
      MatchAtExact(pat, s, q, r.value.digits, r.value.end);
    }
  }

  /**
    When the leftmost match of a text lies inside a piece of it (the piece
    starts at `off`), the same match, shifted to `a`, `d`, `e`, is the
    leftmost match of the piece.
  */
  lemma LeftmostInPiece(pat: Pattern, s: string, off: nat, x: string, m: Match, a: nat, d: nat, e: nat)
    requires off + |x| <= |s| && s[off..off + |x|] == x
    requires IsLeftmost(pat, s, m)
    requires off <= m.start && m.end <= off + |x|
    requires a == m.start - off && d == m.digits - off && e == m.end - off
    ensures IsLeftmost(pat, x, Match(a, d, e))
  {
    PieceMatch(pat, s, off, x, m, a, d, e);
    forall q: nat | q < a ensures MatchAt(pat, x, q).None? {
      assert off + q < m.start;
      NoMatchInPieceBefore(pat, s, off, x, q);
    }
  }

  lemma PieceMatch(pat: Pattern, s: string, off: nat, x: string, m: Match, a: nat, d: nat, e: nat)
    requires off + |x| <= |s| && s[off..off + |x|] == x
    requires IsLeftmost(pat, s, m)
    requires off <= m.start && m.end <= off + |x|
    requires a == m.start - off && d == m.digits - off && e == m.end - off
    ensures a <= d < e <= |x| && MatchAt(pat, x, a) == Some(Match(a, d, e))
  {
    MatchesAtUnshift(pat, s, off, x, m.start, m.digits, m.end, a, d, e);
    assert e == |x| || !IsDigit(x[e]) by {
      if e < |x| { assert x[e] == s[m.end]; }
    }
    MatchAtExact(pat, x, a, d, e);
  }

  lemma NoMatchInPieceBefore(pat: Pattern, s: string, off: nat, x: string, q: nat)
    requires off + |x| <= |s| && s[off..off + |x|] == x
    requires MatchAt(pat, s, off + q).None?
    ensures MatchAt(pat, x, q).None?
  {
    var r := MatchAt(pat, x, q);
    if r.Some? {
      MatchInPieceShifts(pat, s, off, x, q, r.value.digits, r.value.end);
    }
  }

  lemma MatchInPieceShifts(pat: Pattern, s: string, off: nat, x: string, q: nat, d: nat, e: nat)
    requires off + |x| <= |s| && s[off..off + |x|] == x
    requires MatchesAt(pat, x, q, d, e)
    ensures MatchAt(pat, s, off + q).Some?
  {
    MatchesAtShift(pat, s, off, x, q, d, e);
    MatchAtExact(pat, s, off + q, off + d, off + e);
  }
}

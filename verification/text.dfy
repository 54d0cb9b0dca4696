/**
  Character classes and line handling with JavaScript string semantics:
  the `\s` class of regular expressions (which is also the set `trimStart`
  removes), ASCII case mapping, `startsWith`, and `split`/`join` on a
  single separator character.
*/
module Text {

  /** JavaScript `\s`: the WhiteSpace and LineTerminator code points. */
  predicate IsSpace(c: char)
  {
    || c == ' ' || c == '\t' || c == '\n' || c == '\r'
    || c as int == 0x0B || c as int == 0x0C || c as int == 0xA0
    || c as int == 0x1680 || (0x2000 <= c as int <= 0x200A)
    || c as int == 0x2028 || c as int == 0x2029 || c as int == 0x202F
    || c as int == 0x205F || c as int == 0x3000 || c as int == 0xFEFF
  }

  /** JavaScript `\d`. */
  predicate IsDigit(c: char) { '0' <= c <= '9' }

  predicate IsUpper(c: char) { 'A' <= c <= 'Z' }

  predicate IsLower(c: char) { 'a' <= c <= 'z' }

  /** `toLowerCase` restricted to ASCII; every other character is kept. */
  function ToLowerChar(c: char): (r: char)
    ensures !IsUpper(r)
    ensures IsUpper(c) <==> r != c
    ensures IsUpper(c) ==> IsLower(r) && r as int - 'a' as int == c as int - 'A' as int
  {
    if IsUpper(c) then (c as int + 32) as char else c
  }

  /** `toUpperCase` restricted to ASCII; every other character is kept. */
  function ToUpperChar(c: char): (r: char)
    ensures !IsLower(r)
    ensures IsLower(c) <==> r != c
    ensures IsLower(c) ==> IsUpper(r) && r as int - 'A' as int == c as int - 'a' as int
  {
    if IsLower(c) then (c as int - 32) as char else c
  }

  /** Lower-casing a capital and upper-casing the result gives the capital back, and the other way round. */
  lemma CaseRoundTrip(c: char)
    ensures IsUpper(c) ==> ToUpperChar(ToLowerChar(c)) == c
    ensures IsLower(c) ==> ToLowerChar(ToUpperChar(c)) == c
  {
  }

  predicate AllSpace(s: string)
  {
    forall i :: 0 <= i < |s| ==> IsSpace(s[i])
  }

  predicate AllDigits(s: string)
  {
    forall i :: 0 <= i < |s| ==> IsDigit(s[i])
  }

  predicate StartsWith(s: string, prefix: string)
  {
    |prefix| <= |s| && s[..|prefix|] == prefix
  }

  /** The end of the longest run of characters satisfying `f` that starts at `p`. */
  function RunEnd(s: string, p: nat, f: char -> bool): (e: nat)
    requires p <= |s|
    ensures p <= e <= |s|
    ensures forall q :: p <= q < e ==> f(s[q])
    ensures e == |s| || !f(s[e])
    decreases |s| - p
  {
    if p < |s| && f(s[p]) then RunEnd(s, p + 1, f) else p
  }

  /** A run of `f` characters ended by a character that is not `f` ends exactly there. */
  lemma RunEndExact(s: string, p: nat, x: nat, f: char -> bool)
    requires p <= x <= |s|
    requires forall q :: p <= q < x ==> f(s[q])
    requires x == |s| || !f(s[x])
    ensures RunEnd(s, p, f) == x
  {
  }

  /** `String.prototype.trimStart`. */
  function TrimStart(s: string): (r: string)
    ensures |r| <= |s| && r == s[|s| - |r|..]
    ensures AllSpace(s[..|s| - |r|])
    ensures |r| == 0 || !IsSpace(r[0])
  {
    s[RunEnd(s, 0, IsSpace)..]
  }

  /** A string with its leading white space removed is `trimStart` of it. */
  lemma TrimStartIs(s: string, r: string)
    requires |r| <= |s| && r == s[|s| - |r|..]
    requires AllSpace(s[..|s| - |r|])
    requires |r| == 0 || !IsSpace(r[0])
    ensures TrimStart(s) == r
  {
    var x := |s| - |r|;
    assert forall q :: 0 <= q < x ==> IsSpace(s[q]) by {
      forall q | 0 <= q < x ensures IsSpace(s[q]) { assert s[..x][q] == s[q]; }
    }
    assert x == |s| || !IsSpace(s[x]) by { if x < |s| { assert s[x] == r[0]; } }
    RunEndExact(s, 0, x, IsSpace);
  }

  lemma Associate(x: string, y: string, z: string)
    ensures x + y + z == x + (y + z)
  {
  }

  /** The number of occurrences of `c` in `s`. */
  function Count(s: string, c: char): nat
  {
    if |s| == 0 then 0 else (if s[0] == c then 1 else 0) + Count(s[1..], c)
  }

  /** The line separator the tool splits and joins with. */
  const NL: char := '\n'

  /**
    `s.split(sep)` for a one-character separator: the pieces between
    separators, in order; a string without separators is one piece.
  */
  function Split(s: string, sep: char): (r: seq<string>)
    ensures |r| == Count(s, sep) + 1
    decreases |s|
  {
    if |s| == 0 then [""]
    else
      var rest := Split(s[1..], sep);
      if s[0] == sep then [""] + rest
      else [[s[0]] + rest[0]] + rest[1..]
  }

  /** No piece of a split contains the separator. */
  lemma {:induction false} SplitPiecesFree(s: string, sep: char)
    ensures forall k :: 0 <= k < |Split(s, sep)| ==> sep !in Split(s, sep)[k]
    decreases |s|
  {
    if |s| > 0 {
      SplitPiecesFree(s[1..], sep);
    }
  }

  /** `pieces.join(sep)`; the empty list joins to the empty string. */
  function Join(pieces: seq<string>, sep: char): string
  {
    if |pieces| == 0 then ""
    else if |pieces| == 1 then pieces[0]
    else pieces[0] + [sep] + Join(pieces[1..], sep)
  }

  /** Splitting and joining again gives back the original text. */
  lemma {:induction false} JoinSplit(s: string, sep: char)
    ensures Join(Split(s, sep), sep) == s
    decreases |s|
  {
    if |s| > 0 {
      var rest := Split(s[1..], sep);
      JoinSplit(s[1..], sep);
      if s[0] == sep {
        assert Split(s, sep) == [""] + rest;
        assert ([""] + rest)[1..] == rest;
      } else {
        var r := Split(s, sep);
        assert r == [[s[0]] + rest[0]] + rest[1..];
        if |rest| == 1 {
          assert s == [s[0]] + s[1..];
        } else {
          assert r[1..] == rest[1..];
          assert Join(rest, sep) == rest[0] + [sep] + Join(rest[1..], sep);
          assert s == [s[0]] + s[1..];
        }
      }
    }
  }

  /** A piece without separators splits into itself. */
  lemma {:induction false} SplitSingle(x: string, sep: char)
    requires sep !in x
    ensures Split(x, sep) == [x]
    decreases |x|
  {
    if |x| > 0 {
      SplitSingle(x[1..], sep);
      assert [x[0]] + x[1..] == x;
    }
  }

  /** Splitting `x sep y` yields `x` followed by the pieces of `y`. */
  lemma {:induction false} SplitCons(x: string, y: string, sep: char)
    requires sep !in x
    ensures Split(x + [sep] + y, sep) == [x] + Split(y, sep)
    decreases |x|
  {
    var s := x + [sep] + y;
    if |x| == 0 {
      assert s[1..] == y;
    } else {
      assert s[1..] == x[1..] + [sep] + y;
      SplitCons(x[1..], y, sep);
      assert [x[0]] + x[1..] == x;
    }
  }

  /** Joining pieces free of the separator and splitting again gives the pieces back. */
  lemma {:induction false} SplitJoin(pieces: seq<string>, sep: char)
    requires |pieces| >= 1
    requires forall k :: 0 <= k < |pieces| ==> sep !in pieces[k]
    ensures Split(Join(pieces, sep), sep) == pieces
    decreases |pieces|
  {
    if |pieces| == 1 {
      SplitSingle(pieces[0], sep);
    } else {
      SplitJoin(pieces[1..], sep);
      SplitCons(pieces[0], Join(pieces[1..], sep), sep);
      assert [pieces[0]] + pieces[1..] == pieces;
    }
  }

  /** The text that precedes the piece after `pre` in a join: the pieces of `pre`, each followed by `sep`. */
  function Lead(pre: seq<string>, sep: char): string
  {
    if |pre| == 0 then "" else Join(pre, sep) + [sep]
  }

  /** The text that follows a piece when `post` comes after it in a join. */
  function Trail(post: seq<string>, sep: char): string
  {
    if |post| == 0 then "" else [sep] + Join(post, sep)
  }

  /** A join splits around any one piece into lead, piece and trail. */
  lemma {:induction false} JoinSplice(pre: seq<string>, x: string, post: seq<string>, sep: char)
    ensures Join(pre + [x] + post, sep) == Lead(pre, sep) + x + Trail(post, sep)
    decreases |pre|
  {
    if |pre| == 0 {
      assert pre + [x] + post == [x] + post;
      JoinFirst(x, post, sep);
    } else {
      var all := pre + [x] + post;
      assert all[0] == pre[0];
      assert all[1..] == pre[1..] + [x] + post;
      JoinSplice(pre[1..], x, post, sep);
      assert Join(all, sep) == pre[0] + [sep] + Join(all[1..], sep);
      LeadCons(pre, sep);
      Regroup(pre[0] + [sep], Lead(pre[1..], sep), x, Trail(post, sep));
    }
  }

  lemma JoinFirst(x: string, post: seq<string>, sep: char)
    ensures Join([x] + post, sep) == x + Trail(post, sep)
  {
    if |post| > 0 {
      assert ([x] + post)[1..] == post;
    }
  }

  lemma Regroup<T>(a: seq<T>, b: seq<T>, c: seq<T>, d: seq<T>)
    ensures a + (b + c + d) == (a + b) + c + d
  {
  }

  lemma LeadCons(pre: seq<string>, sep: char)
    requires |pre| > 0
    ensures Lead(pre, sep) == pre[0] + [sep] + Lead(pre[1..], sep)
  {
    if |pre| == 1 {
      assert pre[1..] == [];
    }
  }

  /** The number of characters before piece `k` of a join. */
  function PieceStart(pieces: seq<string>, k: nat, sep: char): nat
    requires k <= |pieces|
  {
    |Lead(pieces[..k], sep)|
  }

  /** Replacing `x[a..b]` inside `lead + x + trail` edits only the middle part. */
  lemma EditInMiddle(lead: string, x: string, trail: string, a: nat, b: nat, repl: string)
    requires a <= b <= |x|
    ensures var s := lead + x + trail;
            s[..|lead| + a] + repl + s[|lead| + b..] == lead + (x[..a] + repl + x[b..]) + trail
  {
    var s := lead + x + trail;
    assert s[..|lead| + a] == lead + x[..a];
    assert s[|lead| + b..] == x[b..] + trail;
  }

  /** An edit of a piece by a replacement free of `sep` leaves the piece free of `sep`. */
  lemma EditKeepsSeparatorFree(x: string, a: nat, b: nat, repl: string, sep: char)
    requires a <= b <= |x|
    requires sep !in x && sep !in repl
    ensures sep !in x[..a] + repl + x[b..]
  {
    var x' := x[..a] + repl + x[b..];
    forall i | 0 <= i < |x'| ensures x'[i] != sep {
      if i < a { assert x'[i] == x[i]; }
      else if i < a + |repl| { assert x'[i] == repl[i - a]; }
      else { assert x'[i] == x[b + i - a - |repl|]; }
    }
  }

  /**
    Editing inside one piece of a joined text and splitting again changes
    exactly that piece: every other piece, and their order, is kept.
  */
  lemma SplitAfterEdit(pieces: seq<string>, k: nat, a: nat, b: nat, repl: string, sep: char)
    requires k < |pieces|
    requires forall t :: 0 <= t < |pieces| ==> sep !in pieces[t]
    requires sep !in repl
    requires a <= b <= |pieces[k]|
    ensures var s := Join(pieces, sep);
            var off := PieceStart(pieces, k, sep);
            off + |pieces[k]| <= |s| &&
            s[off..off + |pieces[k]|] == pieces[k] &&
            Split(s[..off + a] + repl + s[off + b..], sep)
              == pieces[k := pieces[k][..a] + repl + pieces[k][b..]]
  {
    var pre, x, post := pieces[..k], pieces[k], pieces[k + 1..];
    assert pieces == pre + [x] + post;
    var x' := x[..a] + repl + x[b..];
    JoinSplice(pre, x, post, sep);
    JoinSplice(pre, x', post, sep);
    var L, T := Lead(pre, sep), Trail(post, sep);
    EditInMiddle(L, x, T, a, b, repl);
    assert (L + x + T)[|L|..|L| + |x|] == x;
    assert pieces[k := x'] == pre + [x'] + post;
    EditKeepsSeparatorFree(x, a, b, repl, sep);
    SplitJoin(pieces[k := x'], sep);
  }

  /** Piece `k` of a split text sits in the text at `PieceStart`. */
  lemma PieceAt(s: string, k: nat, sep: char)
    requires k < |Split(s, sep)|
    ensures var pieces := Split(s, sep);
            var off := PieceStart(pieces, k, sep);
            off + |pieces[k]| <= |s| && s[off..off + |pieces[k]|] == pieces[k]
  {
    var pieces := Split(s, sep);
    var pre, x, post := pieces[..k], pieces[k], pieces[k + 1..];
    assert pieces == pre + [x] + post;
    JoinSplit(s, sep);
    JoinSplice(pre, x, post, sep);
    var L, T := Lead(pre, sep), Trail(post, sep);
    assert (L + x + T)[|L|..|L| + |x|] == x;
  }

  /**
    The same edit stated on the text itself: replacing `s[p..e]`, when it
    lies inside piece `k` of `s` (which starts at `off`), changes that piece
    and keeps the others.
  */
  lemma SplitAfterEditOf(s: string, pieces: seq<string>, k: nat, off: nat, p: nat, e: nat, a: nat, b: nat, repl: string, sep: char)
    requires sep !in repl
    requires pieces == Split(s, sep) && k < |pieces| && off == PieceStart(pieces, k, sep)
    requires off <= p <= e <= off + |pieces[k]|
    requires a == p - off && b == e - off
    ensures off + |pieces[k]| <= |s|
    ensures s[off..off + |pieces[k]|] == pieces[k]
    ensures Split(s[..p] + repl + s[e..], sep) == pieces[k := pieces[k][..a] + repl + pieces[k][b..]]
  {
    var x := pieces[k];
    JoinSplit(s, sep);
    SplitPiecesFree(s, sep);
    SplitAfterEdit(pieces, k, a, b, repl, sep);
    var joined := Join(pieces, sep);
    assert joined == s;
    var t := s[..p] + repl + s[e..];
    assert t == joined[..off + a] + repl + joined[off + b..];
    assert Split(t, sep) == pieces[k := x[..a] + repl + x[b..]];
  }

  /** Replacing the whole of `x` by `y` gives `y`. */
  lemma SpliceWhole<T>(x: seq<T>, a: nat, e: nat, y: seq<T>)
    requires a == 0 && e == |x|
    ensures x[..a] + y + x[e..] == y
  {
    assert x[..a] == [] && x[e..] == [];
  }

  /** `text.includes(sub)`: `sub` occurs somewhere in `text`. */
  ghost predicate Occurs(sub: string, text: string)
  {
    exists i, j :: 0 <= i <= j <= |text| && text[i..j] == sub
  }

  lemma OccursInMiddle(a: string, sub: string, b: string)
    ensures Occurs(sub, a + sub + b)
  {
    var t := a + sub + b;
    assert t[|a|..|a| + |sub|] == sub;
  }

  lemma OccursTrans(a: string, b: string, c: string)
    requires Occurs(a, b) && Occurs(b, c)
    ensures Occurs(a, c)
  {
    var i, j :| 0 <= i <= j <= |c| && c[i..j] == b;
    var i', j' :| 0 <= i' <= j' <= |b| && b[i'..j'] == a;
    forall x | 0 <= x < j' - i' ensures c[i + i'..i + j'][x] == a[x] {
      assert a[x] == b[i' + x] == c[i + i' + x];
    }
    assert c[i + i'..i + j'] == a;
  }

  /** Every piece of a join occurs in the joined text. */
  lemma JoinHasPiece(pieces: seq<string>, k: nat, sep: char)
    requires k < |pieces|
    ensures Occurs(pieces[k], Join(pieces, sep))
  {
    assert pieces == pieces[..k] + [pieces[k]] + pieces[k + 1..];
    JoinSplice(pieces[..k], pieces[k], pieces[k + 1..], sep);
    OccursInMiddle(Lead(pieces[..k], sep), pieces[k], Trail(pieces[k + 1..], sep));
  }
}

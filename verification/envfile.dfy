/**
  The text surgery the tool performs on the pipeline's own `.env` file and
  Dockerfile: reading the port counter (`getNewPort`), committing it
  (`updateLastPort`), deriving a new service's `.env`
  (`createEnvForNewService`) and its Dockerfile
  (`createDockerFileForNewService`).
*/
module EnvFile {
  import opened Wrappers
  import opened Text
  import opened Decimal
  import opened KeyMatch

  /** A line that, once leading white space is trimmed, starts with `LAST_PORT`. */
  predicate IsCounterLine(line: string)
  {
    StartsWith(TrimStart(line), "LAST_PORT")
  }

  /** `lines.find(isCounterLine)`, as an index: the first counter line at or after `from`. */
  function FirstCounterLine(lines: seq<string>, from: nat): (r: Option<nat>)
    requires from <= |lines|
    ensures r.Some? ==>
      && from <= r.value < |lines|
      && IsCounterLine(lines[r.value])
      && forall t :: from <= t < r.value ==> !IsCounterLine(lines[t])
    ensures r.None? ==> forall t :: from <= t < |lines| ==> !IsCounterLine(lines[t])
    decreases |lines| - from
  {
    if from == |lines| then None
    else if IsCounterLine(lines[from]) then Some(from)
    else FirstCounterLine(lines, from + 1)
  }

  /** The first counter line is determined by the lines up to it. */
  lemma FirstCounterLineIs(lines: seq<string>, k: nat)
    requires k < |lines| && IsCounterLine(lines[k])
    requires forall t :: 0 <= t < k ==> !IsCounterLine(lines[t])
    ensures FirstCounterLine(lines, 0) == Some(k)
  {
    var r := FirstCounterLine(lines, 0);
    assert r.Some? by { assert IsCounterLine(lines[k]); }
  }

  /** The `(\d+)` group of `LAST_PORT\s*=\s*(\d+)` matched against one line. */
  function CounterDigits(line: string): (r: Option<string>)
    ensures r.Some? ==> |r.value| > 0 && AllDigits(r.value)
    ensures r.None? <==> Leftmost(LastPortKey, line).None?
  {
    match Leftmost(LastPortKey, line)
    case None => None
    case Some(m) =>
      assert forall i :: 0 <= i < m.end - m.digits ==> line[m.digits..m.end][i] == line[m.digits + i];
      Some(line[m.digits..m.end])
  }

  /**
    `getNewPort`: the counter on the first counter line, plus one. A
    missing line or a line that does not match gives `NaN` (no error is
    raised), and so does `NaN + 1`.
  */
  function GetNewPort(env: string): (r: Port)
    ensures r.Num? ==> r.n >= 1
    ensures (forall t :: 0 <= t < |Split(env, NL)| ==> !IsCounterLine(Split(env, NL)[t])) ==> r == NaN
    ensures var lines := Split(env, NL); var f := FirstCounterLine(lines, 0);
            f.Some? && Leftmost(LastPortKey, lines[f.value]).None? ==> r == NaN
  {
    var lines := Split(env, NL);
    var digits := match FirstCounterLine(lines, 0)
      case None => None
      case Some(k) => CounterDigits(lines[k]);
    match digits
    case None => NaN
    case Some(d) =>
      ParseIntOfDigits(d);
      Next(ParseInt(d))
  }

  /** The text `LAST_PORT = <port>` that `updateLastPort` writes. */
  function CounterAssignment(port: Port): string
  {
    "LAST_PORT = " + PortText(port)
  }

  /**
    `updateLastPort`: the leftmost `LAST_PORT\s*=\s*\d+` of the file becomes
    `LAST_PORT = <port>`.
  */
  function UpdateLastPort(env: string, port: Port): (r: string)
    ensures Leftmost(LastPortKey, env).None? ==> r == env
    ensures Leftmost(LastPortKey, env).Some? ==>
      var m := Leftmost(LastPortKey, env).value;
      r == env[..m.start] + CounterAssignment(port) + env[m.end..]
  {
    ReplaceFirst(LastPortKey, env, CounterAssignment(port))
  }

  /**
    What `updateLastPort` changes: exactly the leftmost counter assignment,
    with the text before and after it kept; a file without one is written
    back unchanged.
  */
  lemma UpdateLastPortEdits(env: string, port: Port)
    ensures (forall q :: MatchAt(LastPortKey, env, q).None?) ==> UpdateLastPort(env, port) == env
    ensures forall m :: IsLeftmost(LastPortKey, env, m) ==>
      var r, a := UpdateLastPort(env, port), CounterAssignment(port);
      && |r| == |env| - (m.end - m.start) + |a|
      && r[..m.start] == env[..m.start]
      && r[m.start..m.start + |a|] == a
      && r[m.start + |a|..] == env[m.end..]
  {
    forall m | IsLeftmost(LastPortKey, env, m)
      ensures var r, a := UpdateLastPort(env, port), CounterAssignment(port);
        && |r| == |env| - (m.end - m.start) + |a|
        && r[..m.start] == env[..m.start]
        && r[m.start..m.start + |a|] == a
        && r[m.start + |a|..] == env[m.end..]
    {
      ReplaceKeepsContext(LastPortKey, env, CounterAssignment(port), m);
    }
  }

  /**
    The counter the tool reads is the one it would overwrite: the leftmost
    `LAST_PORT` assignment of the whole file lies on the first line that
    starts with `LAST_PORT`.
  */
  predicate CounterOnCounterLine(env: string)
  {
    var lines := Split(env, NL);
    match (FirstCounterLine(lines, 0), Leftmost(LastPortKey, env))
    case (Some(k), Some(m)) =>
      var off := PieceStart(lines, k, NL);
      off <= m.start && m.end <= off + |lines[k]|
    case _ => false
  }

  lemma LastPortKeyFacts()
    ensures KeyHeadUnique(LastPortKey) && LastPortKey.withEquals
    ensures !IsSpace(LastPortKey.key[0]) && LastPortKey.key[0] != '=' && !IsDigit(LastPortKey.key[0])
  {
    assert LastPortKey.key == ['L', 'A', 'S', 'T', '_', 'P', 'O', 'R', 'T'];
  }

  lemma NoNewlineInAssignment(n: nat)
    ensures NL !in CounterAssignment(Num(n))
  {
    var a := CounterAssignment(Num(n));
    assert a == "LAST_PORT = " + NatToDecimal(n);
    forall i | 0 <= i < |a| ensures a[i] != NL {
      if i >= 12 { assert a[i] == NatToDecimal(n)[i - 12]; }
    }
  }

  /**
    Overwriting the counter inside a counter line keeps it a counter line:
    the written text starts with `LAST_PORT` itself, and a `LAST_PORT`
    cannot start inside the one that begins the trimmed line.
  */
  lemma CounterLineAfterEdit(x: string, a: nat, b: nat, repl: string)
    requires IsCounterLine(x)
    requires a + 9 <= b <= |x| && x[a..a + 9] == "LAST_PORT"
    requires StartsWith(repl, "LAST_PORT")
    ensures IsCounterLine(x[..a] + repl + x[b..])
  {
    var x' := x[..a] + repl + x[b..];
    var w := RunEnd(x, 0, IsSpace);
    assert x[w..w + 9] == "LAST_PORT";
    assert x[a] == 'L' by { assert x[a] == x[a..a + 9][0]; }
    forall y | w < y < w + 9 ensures x[y] != 'L' {
      assert x[y] == x[w..w + 9][y - w];
    }
    assert w <= a;
    forall i | 0 <= i < w ensures IsSpace(x'[i]) {
      assert x'[i] == x[i];
    }
    if a == w {
      assert x'[w] == 'L' by { assert x'[w] == repl[0]; }
      RunEndExact(x', 0, w, IsSpace);
      assert x'[w..w + 9] == repl[..9];
    } else {
      assert w + 9 <= a;
      assert x'[w] == x[w];
      RunEndExact(x', 0, w, IsSpace);
      assert x'[w..w + 9] == x[w..w + 9];
    }
  }

  /**
    A leftmost match that lies inside line `k` (which starts at `off`) is
    also the leftmost match of that line, at the positions `a`, `d`, `e`
    relative to the line.
  */
  lemma LeftmostInLine(pat: Pattern, s: string, lines: seq<string>, k: nat, off: nat, m: Match, a: nat, d: nat, e: nat)
    requires lines == Split(s, NL) && k < |lines| && off == PieceStart(lines, k, NL)
    requires IsLeftmost(pat, s, m) && off <= m.start && m.end <= off + |lines[k]|
    requires a == m.start - off && d == m.digits - off && e == m.end - off
    ensures Leftmost(pat, lines[k]) == Some(Match(a, d, e))
  {
    PieceAt(s, k, NL);
    LeftmostInPiece(pat, s, off, lines[k], m, a, d, e);
    LeftmostIs(pat, lines[k], Match(a, d, e));
  }

  /**
    Replacing the leftmost match of a text, when that match lies inside
    line `k`, edits only line `k`: every other line is kept.
  */
  lemma ReplaceInLine(pat: Pattern, s: string, repl: string, lines: seq<string>, k: nat, off: nat, m: Match, a: nat, e: nat)
    requires NL !in repl
    requires lines == Split(s, NL) && k < |lines| && off == PieceStart(lines, k, NL)
    requires IsLeftmost(pat, s, m) && off <= m.start && m.end <= off + |lines[k]|
    requires a == m.start - off && e == m.end - off
    ensures Split(ReplaceFirst(pat, s, repl), NL) == lines[k := lines[k][..a] + repl + lines[k][e..]]
  {
    SplitAfterEditOf(s, lines, k, off, m.start, m.end, a, e, repl, NL);
    ReplaceSplitsAs(pat, s, repl, lines[k := lines[k][..a] + repl + lines[k][e..]], m);
  }

  lemma ReplaceSplitsAs(pat: Pattern, s: string, repl: string, lines: seq<string>, m: Match)
    requires IsLeftmost(pat, s, m)
    requires Split(s[..m.start] + repl + s[m.end..], NL) == lines
    ensures Split(ReplaceFirst(pat, s, repl), NL) == lines
  {
    assert ReplaceFirst(pat, s, repl) == s[..m.start] + repl + s[m.end..];
  }

  lemma CounterAssignmentIs(n: nat)
    ensures CounterAssignment(Num(n)) == Assignment(LastPortKey, NatToDecimal(n))
    ensures StartsWith(CounterAssignment(Num(n)), "LAST_PORT")
  {
    assert CounterAssignment(Num(n))[..9] == "LAST_PORT";
  }

  /** The counter read back from a line just committed is the written digit string. */
  lemma CounterDigitsAfterCommit(x: string, ma: Match, D: string)
    requires IsLeftmost(LastPortKey, x, ma)
    requires |D| > 0 && AllDigits(D)
    ensures CounterDigits(x[..ma.start] + Assignment(LastPortKey, D) + x[ma.end..]) == Some(D)
  {
    LastPortKeyFacts();
    var a := Assignment(LastPortKey, D);
    var x' := x[..ma.start] + a + x[ma.end..];
    assert |LastPortKey.key| == 9;
    var M := Match(ma.start, ma.start + 12, ma.start + |a|);
    AssignmentIsLeftmost(LastPortKey, x, ma, D, M.digits, M.end);
    LeftmostIs(LastPortKey, x', M);
    AssignmentDigitsAt(x[..ma.start], D, x[ma.end..]);
  }

  lemma AssignmentDigitsAt(before: string, D: string, after: string)
    ensures var a := Assignment(LastPortKey, D);
            (before + a + after)[|before| + 12..|before| + |a|] == D
  {
    var a := Assignment(LastPortKey, D);
    assert |LastPortKey.key| == 9;
    ConcatMiddle(before, a, after, 12, |a|);
    assert a[12..] == D;
  }

  /** Committing `n` on a counter line leaves a counter line whose counter reads `n`. */
  lemma CommitOnCounterLine(x: string, ma: Match, n: nat)
    requires IsCounterLine(x) && IsLeftmost(LastPortKey, x, ma)
    ensures var x' := x[..ma.start] + CounterAssignment(Num(n)) + x[ma.end..];
            IsCounterLine(x') && CounterDigits(x') == Some(NatToDecimal(n))
  {
    CounterAssignmentIs(n);
    assert x[ma.start..ma.start + 9] == "LAST_PORT" by {
      assert MatchAt(LastPortKey, x, ma.start) == Some(ma);
    }
    CounterLineAfterEdit(x, ma.start, ma.end, CounterAssignment(Num(n)));
    CounterDigitsAfterCommit(x, ma, NatToDecimal(n));
  }

  /**
    The lines after a commit: the counter line is the same line, still the
    first counter line, now holding the committed counter.
  */
  lemma CommitEditsCounterLine(env: string, n: nat, lines: seq<string>, k: nat, off: nat, m: Match, a: nat, d: nat, e: nat)
    requires lines == Split(env, NL) && k < |lines| && off == PieceStart(lines, k, NL)
    requires FirstCounterLine(lines, 0) == Some(k)
    requires IsLeftmost(LastPortKey, env, m) && off <= m.start && m.end <= off + |lines[k]|
    requires a == m.start - off && d == m.digits - off && e == m.end - off
    ensures var lines' := Split(UpdateLastPort(env, Num(n)), NL);
            && |lines'| == |lines| && lines'[..k] == lines[..k]
            && |lines'[k]| == |lines[k]| - (e - a) + |CounterAssignment(Num(n))|
            && FirstCounterLine(lines', 0) == Some(k)
            && CounterDigits(lines'[k]) == Some(NatToDecimal(n))
  {
    NoNewlineInAssignment(n);
    ReplaceInLine(LastPortKey, env, CounterAssignment(Num(n)), lines, k, off, m, a, e);
    LeftmostInLine(LastPortKey, env, lines, k, off, m, a, d, e);
    CommittedLines(lines, k, a, d, e, n, Split(UpdateLastPort(env, Num(n)), NL));
  }

  /** The same, on the lines alone: only the counter line changes, and it stays the first. */
  lemma CommittedLines(lines: seq<string>, k: nat, a: nat, d: nat, e: nat, n: nat, lines': seq<string>)
    requires k < |lines| && FirstCounterLine(lines, 0) == Some(k)
    requires Leftmost(LastPortKey, lines[k]) == Some(Match(a, d, e))
    requires lines' == lines[k := lines[k][..a] + CounterAssignment(Num(n)) + lines[k][e..]]
    ensures |lines'| == |lines| && lines'[..k] == lines[..k]
    ensures |lines'[k]| == |lines[k]| - (e - a) + |CounterAssignment(Num(n))|
    ensures FirstCounterLine(lines', 0) == Some(k)
    ensures CounterDigits(lines'[k]) == Some(NatToDecimal(n))
  {
    CommitOnCounterLine(lines[k], Match(a, d, e), n);
    assert lines'[..k] == lines[..k];
    FirstCounterLineIs(lines', k);
  }

  /** After a commit the counter that is read is the one just written. */
  lemma CounterReadBack(env: string, n: nat)
    requires CounterOnCounterLine(env)
    ensures GetNewPort(UpdateLastPort(env, Num(n))) == Num(n + 1)
  {
    var lines, k, off, m, a, d, e := CounterPlace(env);
    CommitEditsCounterLine(env, n, lines, k, off, m, a, d, e);
    GetNewPortReads(UpdateLastPort(env, Num(n)), k, NatToDecimal(n));
    DecimalRoundTrip(n);
  }

  /** Where the counter sits: line `k`, starting at `off`, holds the leftmost match at `a`..`e`. */
  lemma CounterPlace(env: string) returns (lines: seq<string>, k: nat, off: nat, m: Match, a: nat, d: nat, e: nat)
    requires CounterOnCounterLine(env)
    ensures lines == Split(env, NL) && k < |lines| && off == PieceStart(lines, k, NL)
    ensures FirstCounterLine(lines, 0) == Some(k)
    ensures IsLeftmost(LastPortKey, env, m) && off <= m.start && m.end <= off + |lines[k]|
    ensures a == m.start - off && d == m.digits - off && e == m.end - off
  {
    lines := Split(env, NL);
    k := FirstCounterLine(lines, 0).value;
    m := Leftmost(LastPortKey, env).value;
    off := PieceStart(lines, k, NL);
    a, d, e := m.start - off, m.digits - off, m.end - off;
  }

  /** `getNewPort` is the decimal value of the first counter line's digits, plus one. */
  lemma GetNewPortReads(env: string, k: nat, D: string)
    requires var lines := Split(env, NL); FirstCounterLine(lines, 0) == Some(k) && k < |lines| && CounterDigits(lines[k]) == Some(D)
    ensures GetNewPort(env) == Num(ValueIn(D, 10) + 1)
  {
    ParseIntOfDigits(D);
  }

  /** After a commit the file still has its counter on its counter line. */
  lemma CounterShapeKept(env: string, n: nat)
    requires CounterOnCounterLine(env)
    ensures CounterOnCounterLine(UpdateLastPort(env, Num(n)))
  {
    var lines, k, off, m, a, d, e := CounterPlace(env);
    CommitEditsCounterLine(env, n, lines, k, off, m, a, d, e);
    CommitLeftmost(env, n, m);
    ShapeAfterCommit(env, n, Split(UpdateLastPort(env, Num(n)), NL), lines, k, off, m, a, e);
  }

  /** The assignment just written is the new leftmost `LAST_PORT` match of the file. */
  lemma CommitLeftmost(env: string, n: nat, m: Match)
    requires IsLeftmost(LastPortKey, env, m)
    ensures var r := Leftmost(LastPortKey, UpdateLastPort(env, Num(n)));
            r.Some? && r.value.start == m.start && r.value.end == m.start + |CounterAssignment(Num(n))|
  {
    var D := NatToDecimal(n);
    var t := env[..m.start] + Assignment(LastPortKey, D) + env[m.end..];
    LastPortKeyFacts();
    var M := Match(m.start, m.start + |LastPortKey.key| + 3, m.start + |Assignment(LastPortKey, D)|);
    AssignmentIsLeftmost(LastPortKey, env, m, D, M.digits, M.end);
    LeftmostIs(LastPortKey, t, M);
    CounterAssignmentIs(n);
    UpdateIsSplice(env, n, m, t);
  }

  lemma UpdateIsSplice(env: string, n: nat, m: Match, t: string)
    requires IsLeftmost(LastPortKey, env, m)
    requires t == env[..m.start] + CounterAssignment(Num(n)) + env[m.end..]
    ensures UpdateLastPort(env, Num(n)) == t
  {
  }

  lemma ShapeAfterCommit(env: string, n: nat, lines': seq<string>, lines: seq<string>, k: nat, off: nat, m: Match, a: nat, e: nat)
    requires lines' == Split(UpdateLastPort(env, Num(n)), NL)
    requires k < |lines| && off == PieceStart(lines, k, NL)
    requires off <= m.start && m.end <= off + |lines[k]| && a == m.start - off && e == m.end - off
    requires |lines'| == |lines| && lines'[..k] == lines[..k]
    requires |lines'[k]| == |lines[k]| - (e - a) + |CounterAssignment(Num(n))|
    requires FirstCounterLine(lines', 0) == Some(k)
    requires var r := Leftmost(LastPortKey, UpdateLastPort(env, Num(n)));
             r.Some? && r.value.start == m.start && r.value.end == m.start + |CounterAssignment(Num(n))|
    ensures CounterOnCounterLine(UpdateLastPort(env, Num(n)))
  {
    assert PieceStart(lines', k, NL) == off;
  }

  /**
    Round trip of the port counter: when the counter `getNewPort` reads is
    the one `updateLastPort` overwrites, committing `n` and reading again
    yields `n + 1`, and the file keeps that shape for the next commit.
  */
  lemma CounterRoundTrip(env: string, n: nat)
    requires CounterOnCounterLine(env)
    ensures GetNewPort(UpdateLastPort(env, Num(n))) == Num(n + 1)
    ensures CounterOnCounterLine(UpdateLastPort(env, Num(n)))
  {
    CounterReadBack(env, n);
    CounterShapeKept(env, n);
  }

  /** In the line `LAST_PORT = n` the leftmost counter assignment is the whole line, with `n`'s digits. */
  lemma SingleLineMatch(n: nat)
    ensures var env := CounterAssignment(Num(n));
            && Leftmost(LastPortKey, env) == Some(Match(0, 12, |env|))
            && IsLeftmost(LastPortKey, env, Match(0, 12, |env|))
            && env[12..|env|] == NatToDecimal(n)
  {
    var env, D := CounterAssignment(Num(n)), NatToDecimal(n);
    CounterAssignmentIs(n);
    assert env == "" + Assignment(LastPortKey, D) + "";
    AssignmentMatches(LastPortKey, "", D, "", 0, 12, |env|);
    LeftmostIs(LastPortKey, env, Match(0, 12, |env|));
  }

  /** The line `LAST_PORT = n` is a file of one line, and that line is its counter line. */
  lemma SingleLineSplit(n: nat)
    ensures var env := CounterAssignment(Num(n));
            && Split(env, NL) == [env]
            && FirstCounterLine([env], 0) == Some(0)
            && PieceStart([env], 0, NL) == 0
  {
    var env := CounterAssignment(Num(n));
    NoNewlineInAssignment(n);
    SplitSingle(env, NL);
    RunEndExact(env, 0, 0, IsSpace);
    assert IsCounterLine(env);
    FirstCounterLineIs([env], 0);
  }

  /**
    A `.env` that is just the line `LAST_PORT = n` has its counter on its
    counter line, hands out `n + 1`, and a commit of any port rewrites the
    whole line.
  */
  lemma SingleCounterLine(n: nat, k: nat)
    ensures CounterOnCounterLine(CounterAssignment(Num(n)))
    ensures GetNewPort(CounterAssignment(Num(n))) == Num(n + 1)
    ensures UpdateLastPort(CounterAssignment(Num(n)), Num(k)) == CounterAssignment(Num(k))
  {
    SingleLineShape(n);
    SingleLineReads(n);
    SingleLineCommit(n, k);
  }

  lemma SingleLineShape(n: nat)
    ensures CounterOnCounterLine(CounterAssignment(Num(n)))
  {
    SingleLineMatch(n);
    SingleLineSplit(n);
  }

  lemma SingleLineReads(n: nat)
    ensures GetNewPort(CounterAssignment(Num(n))) == Num(n + 1)
  {
    var env := CounterAssignment(Num(n));
    SingleLineMatch(n);
    SingleLineSplit(n);
    assert CounterDigits(env) == Some(NatToDecimal(n));
    GetNewPortReads(env, 0, NatToDecimal(n));
    DecimalRoundTrip(n);
  }

  lemma SingleLineCommit(n: nat, k: nat)
    ensures UpdateLastPort(CounterAssignment(Num(n)), Num(k)) == CounterAssignment(Num(k))
  {
    var env := CounterAssignment(Num(n));
    SingleLineMatch(n);
    assert env[..0] + CounterAssignment(Num(k)) + env[|env|..] == CounterAssignment(Num(k));
    UpdateIsSplice(env, k, Match(0, 12, |env|), CounterAssignment(Num(k)));
  }

  /** The counter starting at `LAST_PORT = 4000` hands out 4001 and then reads `LAST_PORT = 4001`. */
  lemma CounterScenario()
    ensures GetNewPort("LAST_PORT = 4000") == Num(4001)
    ensures UpdateLastPort("LAST_PORT = 4000", Num(4001)) == "LAST_PORT = 4001"
  {
    assert NatToDecimal(4) == "4";
    assert NatToDecimal(40) == "40";
    assert NatToDecimal(400) == "400";
    assert NatToDecimal(4000) == "4000";
    assert NatToDecimal(4001) == "4001";
    assert CounterAssignment(Num(4000)) == "LAST_PORT = 4000";
    assert CounterAssignment(Num(4001)) == "LAST_PORT = 4001";
    SingleCounterLine(4000, 4001);
  }

  /** One scaffold's effect on the counter: read the next port and commit it. */
  function AllocatePort(env: string): string
  {
    UpdateLastPort(env, GetNewPort(env))
  }

  /** `f` applied `count` times; `Iterate(AllocatePort, env, count)` is the file after `count` scaffolds. */
  function Iterate(f: string -> string, x: string, count: nat): string
    decreases count
  {
    if count == 0 then x else Iterate(f, f(x), count - 1)
  }

  /** An invariant that `f` carries from index `q` to `q + 1` holds after `count` steps at `p + count`. */
  lemma {:induction false} IterateKeeps(f: string -> string, inv: (string, int) -> bool, x: string, p: int, count: nat)
    requires forall y, q :: inv(y, q) ==> inv(f(y), q + 1)
    requires inv(x, p)
    ensures inv(Iterate(f, x, count), p + count)
    decreases count
  {
    if count > 0 {
      IterateKeeps(f, inv, f(x), p + 1, count - 1);
    }
  }

  /** The file has its counter on its counter line, and the next port it hands out is `q + 1`. */
  predicate CounterReads(env: string, q: int)
  {
    q >= 0 && CounterOnCounterLine(env) && GetNewPort(env) == Num(q + 1)
  }

  lemma AllocateStep(env: string, q: int)
    requires CounterReads(env, q)
    ensures q + 1 >= 0 && CounterOnCounterLine(AllocatePort(env)) && GetNewPort(AllocatePort(env)) == Num(q + 1 + 1)
  {
    CounterRoundTrip(env, q + 1);
  }

  lemma CounterReadsAdvances()
    ensures forall y, q :: CounterReads(y, q) ==> CounterReads(AllocatePort(y), q + 1)
  {
    forall y, q | CounterReads(y, q) ensures CounterReads(AllocatePort(y), q + 1) {
      AllocateStep(y, q);
    }
  }

  /**
    Allocation over several scaffolds: starting from a file whose counter
    reads as `p`, committing each port read `count` times in a row leaves a
    file whose counter reads as `p + count`, so the ports handed out are
    `p + 1`, `p + 2`, ... without repetition.
  */
  lemma CounterAdvancesByOnePerCommit(env: string, p: nat, count: nat)
    requires CounterOnCounterLine(env)
    requires GetNewPort(env) == Num(p + 1)
    ensures CounterOnCounterLine(Iterate(AllocatePort, env, count))
    ensures GetNewPort(Iterate(AllocatePort, env, count)) == Num(p + count + 1)
  {
    CounterReadsAdvances();
    IterateKeeps(AllocatePort, CounterReads, env, p, count);
  }

  // ---------------------------------------------------------------------
  // A counter that is read from one line and committed to another
  // ---------------------------------------------------------------------

  /**
    A `.env` whose first line is a commented-out counter `#LAST_PORT = a`
    and whose second line is the counter `LAST_PORT = b`. The read looks
    only at lines that start with `LAST_PORT`; the commit rewrites the
    first assignment anywhere in the file, which is the comment.
  */
  function CommentedCounter(a: nat, b: nat): string
  {
    "#" + CounterAssignment(Num(a)) + ([NL] + CounterAssignment(Num(b)))
  }

  /**
    With the counter behind a commented-out one, every scaffold reads
    `b + 1` and rewrites only the comment: the same port is handed out
    again and again, and the counter is not on its counter line.
  */
  lemma CommentedCounterRepeats(a: nat, b: nat)
    ensures !CounterOnCounterLine(CommentedCounter(a, b))
    ensures GetNewPort(CommentedCounter(a, b)) == Num(b + 1)
    ensures AllocatePort(CommentedCounter(a, b)) == CommentedCounter(b + 1, b)
    ensures GetNewPort(AllocatePort(CommentedCounter(a, b))) == Num(b + 1)
  {
    CommentedReads(a, b);
    CommentedCommit(a, b);
    CommentedReads(b + 1, b);
    CommentedShape(a, b);
  }

  lemma CommentedLines(a: nat, b: nat)
    ensures var x, y := "#" + CounterAssignment(Num(a)), CounterAssignment(Num(b));
            && Split(CommentedCounter(a, b), NL) == [x, y]
            && FirstCounterLine([x, y], 0) == Some(1)
  {
    var x, y := "#" + CounterAssignment(Num(a)), CounterAssignment(Num(b));
    NoNewlineInAssignment(a);
    NoNewlineInAssignment(b);
    HashNoNewline(CounterAssignment(Num(a)));
    Associate("#", CounterAssignment(Num(a)), [NL] + y);
    SplitTwoLines(CommentedCounter(a, b), x, y);
    SingleLineSplit(b);
    CommentThenCounter(x, y);
  }

  lemma HashNoNewline(A: string)
    requires NL !in A
    ensures NL !in "#" + A
  {
    assert forall i :: 1 <= i < |"#" + A| ==> ("#" + A)[i] == A[i - 1];
  }

  lemma SplitTwoLines(env: string, x: string, y: string)
    requires env == x + ([NL] + y) && NL !in x && NL !in y
    ensures Split(env, NL) == [x, y]
  {
    SplitSingle(y, NL);
    SplitCons(x, y, NL);
    Associate(x, [NL], y);
  }

  /** A line starting with `#` is not a counter line, so the counter line after it is the first. */
  lemma CommentThenCounter(x: string, y: string)
    requires |x| > 0 && x[0] == '#' && IsCounterLine(y)
    ensures FirstCounterLine([x, y], 0) == Some(1)
  {
    RunEndExact(x, 0, 0, IsSpace);
    assert !IsCounterLine(x) by { assert TrimStart(x)[0] == '#'; }
    FirstCounterLineIs([x, y], 1);
  }

  lemma CommentedReads(a: nat, b: nat)
    ensures GetNewPort(CommentedCounter(a, b)) == Num(b + 1)
  {
    CommentedLines(a, b);
    SingleLineDigits(b);
    ReadsSecondLine(CommentedCounter(a, b), "#" + CounterAssignment(Num(a)), CounterAssignment(Num(b)), NatToDecimal(b));
  }

  lemma SingleLineDigits(n: nat)
    ensures CounterDigits(CounterAssignment(Num(n))) == Some(NatToDecimal(n))
    ensures ValueIn(NatToDecimal(n), 10) == n
  {
    SingleLineMatch(n);
    DecimalRoundTrip(n);
  }

  lemma ReadsSecondLine(env: string, x: string, y: string, D: string)
    requires Split(env, NL) == [x, y] && FirstCounterLine([x, y], 0) == Some(1)
    requires CounterDigits(y) == Some(D)
    ensures GetNewPort(env) == Num(ValueIn(D, 10) + 1)
  {
    GetNewPortReads(env, 1, D);
  }

  /** The leftmost counter assignment of the file is the commented-out one. */
  lemma CommentedMatch(a: nat, b: nat)
    ensures var m := Match(1, 13, 1 + |CounterAssignment(Num(a))|);
            IsLeftmost(LastPortKey, CommentedCounter(a, b), m) && Leftmost(LastPortKey, CommentedCounter(a, b)) == Some(m)
  {
    CounterAssignmentIs(a);
    Associate("#", CounterAssignment(Num(a)), [NL] + CounterAssignment(Num(b)));
    MatchAfterHash(CommentedCounter(a, b), CounterAssignment(Num(a)), NatToDecimal(a), [NL] + CounterAssignment(Num(b)));
  }

  /** In `#` + `LAST_PORT = D` + a text that does not start with a digit, the assignment is the leftmost match. */
  lemma MatchAfterHash(env: string, A: string, D: string, after: string)
    requires env == "#" + A + after && A == Assignment(LastPortKey, D)
    requires |D| > 0 && AllDigits(D) && (after == [] || !IsDigit(after[0]))
    ensures IsLeftmost(LastPortKey, env, Match(1, 13, 1 + |A|))
    ensures Leftmost(LastPortKey, env) == Some(Match(1, 13, 1 + |A|))
  {
    var m := Match(1, 13, 1 + |A|);
    AssignmentMatches(LastPortKey, "#", D, after, 1, 13, m.end);
    assert MatchAt(LastPortKey, env, 0).None? by { assert env[0] == '#'; }
    assert forall q: nat :: q < m.start ==> MatchAt(LastPortKey, env, q).None?;
    LeftmostIs(LastPortKey, env, m);
  }

  lemma CommentedCommit(a: nat, b: nat)
    ensures AllocatePort(CommentedCounter(a, b)) == CommentedCounter(b + 1, b)
  {
    var m := Match(1, 13, 1 + |CounterAssignment(Num(a))|);
    CommentedReads(a, b);
    CommentedMatch(a, b);
    SpliceAfterHash(CommentedCounter(a, b), CounterAssignment(Num(a)), [NL] + CounterAssignment(Num(b)), CounterAssignment(Num(b + 1)));
    Associate("#", CounterAssignment(Num(b + 1)), [NL] + CounterAssignment(Num(b)));
    UpdateIsSplice(CommentedCounter(a, b), b + 1, m, CommentedCounter(b + 1, b));
  }

  lemma SpliceAfterHash(env: string, A: string, after: string, B: string)
    requires env == "#" + A + after
    ensures env[..1] + B + env[1 + |A|..] == "#" + B + after
  {
    assert env[..1] == "#";
    assert env[1 + |A|..] == after;
  }

  lemma CommentedShape(a: nat, b: nat)
    ensures !CounterOnCounterLine(CommentedCounter(a, b))
  {
    var x, y := "#" + CounterAssignment(Num(a)), CounterAssignment(Num(b));
    CommentedLines(a, b);
    CommentedMatch(a, b);
    assert PieceStart([x, y], 1, NL) == |x| + 1 by {
      assert [x, y][..1] == [x];
      assert Lead([x], NL) == x + [NL];
    }
  }

  // ---------------------------------------------------------------------
  // The new service's .env
  // ---------------------------------------------------------------------

  /** The line every `SERVER...` line is replaced by; it keeps the source's trailing carriage return. */
  function ServerLine(port: Port): string
  {
    "SERVER = http://localhost:" + PortText(port) + "\r"
  }

  /** The text `PORT = <port>` written over the first `PORT\s*=\s*\d+`. */
  function PortAssignment(port: Port): string
  {
    "PORT = " + PortText(port)
  }

  lemma ServerLineFacts(port: Port)
    ensures StartsWith(ServerLine(port), "SERVER")
    ensures !StartsWith(ServerLine(port), "LAST_PORT")
    ensures ServerLine(port) != ""
  {
    assert ServerLine(port)[..6] == "SERVER";
    assert ServerLine(port)[0] == 'S';
  }

  /** The per-line rule of `createEnvForNewService` before `filter(Boolean)`: `None` is `null`. */
  function RewriteEnvLine(line: string, port: Port): (r: Option<string>)
    ensures StartsWith(line, "LAST_PORT") <==> r.None?
    ensures r.Some? && StartsWith(line, "SERVER") ==> r.value == ServerLine(port)
    ensures r.Some? && !StartsWith(line, "SERVER") ==> r.value == line
  {
    if StartsWith(line, "LAST_PORT") then None
    else if StartsWith(line, "SERVER") then Some(ServerLine(port))
    else Some(line)
  }

  /** The kept lines: the rule above, then `filter(Boolean)`, which drops `null` and `""`. */
  function RewriteEnvLines(lines: seq<string>, port: Port): (r: seq<string>)
    ensures |r| <= |lines|
    ensures forall i :: 0 <= i < |r| ==> r[i] != ""
    ensures forall i :: 0 <= i < |r| ==> !StartsWith(r[i], "LAST_PORT")
    ensures forall i :: 0 <= i < |r| ==> r[i] == ServerLine(port) || (r[i] in lines && !StartsWith(r[i], "SERVER"))
  {
    if |lines| == 0 then []
    else KeptLine(lines[0], port) + RewriteEnvLines(lines[1..], port)
  }

  /** What one line contributes to the kept lines: nothing, or one non-empty line. */
  function KeptLine(line: string, port: Port): (r: seq<string>)
    ensures |r| <= 1
    ensures |r| == 1 ==> r[0] != "" && !StartsWith(r[0], "LAST_PORT")
    ensures |r| == 1 ==> r[0] == ServerLine(port) || (r[0] == line && !StartsWith(line, "SERVER"))
  {
    ServerLineFacts(port);
    match RewriteEnvLine(line, port)
    case Some(l) => if l == "" then [] else [l]
    case None => []
  }

  /** The rewrite is line by line: it keeps the order of the lines it keeps. */
  lemma {:induction false} RewriteEnvLinesAppend(a: seq<string>, b: seq<string>, port: Port)
    ensures RewriteEnvLines(a + b, port) == RewriteEnvLines(a, port) + RewriteEnvLines(b, port)
    decreases |a|
  {
    if |a| > 0 {
      var ab := a + b;
      assert ab[0] == a[0];
      assert ab[1..] == a[1..] + b;
      RewriteEnvLinesAppend(a[1..], b, port);
      var h := KeptLine(a[0], port);
      assert RewriteEnvLines(ab, port) == h + RewriteEnvLines(a[1..] + b, port);
      assert RewriteEnvLines(a, port) == h + RewriteEnvLines(a[1..], port);
    } else {
      assert a + b == b;
    }
  }

  /** What happens to one line: dropped, replaced by the server line, or kept verbatim. */
  lemma RewriteOneLine(line: string, port: Port)
    ensures line == "" || StartsWith(line, "LAST_PORT") ==> RewriteEnvLines([line], port) == []
    ensures StartsWith(line, "SERVER") ==> RewriteEnvLines([line], port) == [ServerLine(port)]
    ensures line != "" && !StartsWith(line, "LAST_PORT") && !StartsWith(line, "SERVER") ==>
              RewriteEnvLines([line], port) == [line]
  {
    assert [line][1..] == [];
    if StartsWith(line, "SERVER") {
      assert line[..6] == "SERVER";
      assert !StartsWith(line, "LAST_PORT") by {
        if |line| >= 9 { assert line[0] == 'S'; }
      }
    }
  }

  /** `createEnvForNewService`: rewrite the first `PORT` assignment, then rewrite the lines and join them. */
  function CreateEnv(env: string, port: Port): (r: string)
    ensures forall t :: 0 <= t < |Split(r, NL)| ==> !StartsWith(Split(r, NL)[t], "LAST_PORT")
    ensures forall t :: 0 <= t < |Split(r, NL)| && StartsWith(Split(r, NL)[t], "SERVER") ==> Split(r, NL)[t] == ServerLine(port)
  {
    var replaced := ReplaceFirst(PortKey, env, PortAssignment(port));
    JoinKeptLines(replaced, port);
    Join(RewriteEnvLines(Split(replaced, NL), port), NL)
  }

  /** The kept lines, joined, split back into themselves; none kept joins to the empty file. */
  lemma JoinKeptLines(replaced: string, port: Port)
    ensures var kept := RewriteEnvLines(Split(replaced, NL), port);
            && (|kept| > 0 ==> Split(Join(kept, NL), NL) == kept)
            && (|kept| == 0 ==> Join(kept, NL) == "")
  {
    var kept := RewriteEnvLines(Split(replaced, NL), port);
    SplitPiecesFree(replaced, NL);
    NoNewlineInKeptLines(Split(replaced, NL), port);
    if |kept| > 0 {
      SplitJoin(kept, NL);
    }
  }

  /**
    The lines of the new `.env` are exactly the kept lines of the text after
    the `PORT` rewrite; when no line is kept the file is empty.
  */
  lemma CreateEnvLines(env: string, port: Port)
    ensures var kept := RewriteEnvLines(Split(ReplaceFirst(PortKey, env, PortAssignment(port)), NL), port);
            && (|kept| > 0 ==> Split(CreateEnv(env, port), NL) == kept)
            && (|kept| == 0 ==> CreateEnv(env, port) == "")
  {
    JoinKeptLines(ReplaceFirst(PortKey, env, PortAssignment(port)), port);
  }

  lemma NoNewlineInPortText(port: Port)
    ensures NL !in PortText(port)
  {
    var t := PortText(port);
    if port.Num? && port.n < 0 {
      var d := NatToDecimal(-port.n);
      assert t == "-" + d;
      forall i | 0 <= i < |t| ensures t[i] != NL {
        if i > 0 { assert t[i] == d[i - 1]; }
      }
    }
  }

  lemma NoNewlineAround(before: string, port: Port, after: string)
    requires NL !in before && NL !in after
    ensures NL !in before + PortText(port) + after
  {
    NoNewlineInPortText(port);
  }

  lemma NoNewlineInServerLine(port: Port)
    ensures NL !in ServerLine(port)
  {
    NoNewlineAround("SERVER = http://localhost:", port, "\r");
  }

  lemma NoNewlineInKeptLines(lines: seq<string>, port: Port)
    requires forall t :: 0 <= t < |lines| ==> NL !in lines[t]
    ensures forall t :: 0 <= t < |RewriteEnvLines(lines, port)| ==> NL !in RewriteEnvLines(lines, port)[t]
  {
    NoNewlineInServerLine(port);
  }

  /**
    When the first `PORT\s*=\s*\d+` of the file lies inside line `k` (at
    `a`..`e` of that line), the new `.env` is the line rewrite applied to
    the original lines with only that line edited.
  */
  lemma PortRewriteEditsOneLine(env: string, port: Port, lines: seq<string>, k: nat, off: nat, m: Match, a: nat, e: nat)
    requires lines == Split(env, NL) && k < |lines| && off == PieceStart(lines, k, NL)
    requires IsLeftmost(PortKey, env, m) && off <= m.start && m.end <= off + |lines[k]|
    requires a == m.start - off && e == m.end - off
    ensures CreateEnv(env, port) == Join(RewriteEnvLines(lines[k := lines[k][..a] + PortAssignment(port) + lines[k][e..]], port), NL)
  {
    NoNewlineAround("PORT = ", port, "");
    assert PortAssignment(port) + "" == PortAssignment(port);
    ReplaceInLine(PortKey, env, PortAssignment(port), lines, k, off, m, a, e);
  }

  /** The first `PORT` match, seen from its line: the line holds `PORT` at `a`. */
  lemma PortMatchInLine(env: string, lines: seq<string>, k: nat, off: nat, m: Match, a: nat, d: nat, e: nat)
    requires lines == Split(env, NL) && k < |lines| && off == PieceStart(lines, k, NL)
    requires IsLeftmost(PortKey, env, m) && off <= m.start && m.end <= off + |lines[k]|
    requires a == m.start - off && d == m.digits - off && e == m.end - off
    ensures a + 4 <= e <= |lines[k]| && lines[k][a..a + 4] == "PORT"
  {
    LeftmostInLine(PortKey, env, lines, k, off, m, a, d, e);
    MatchHoldsKey(PortKey, lines[k], Match(a, d, e));
  }

  lemma MatchHoldsKey(pat: Pattern, x: string, ma: Match)
    requires Leftmost(pat, x) == Some(ma)
    ensures ma.start + |pat.key| <= ma.end <= |x| && x[ma.start..ma.start + |pat.key|] == pat.key
  {
    assert MatchAt(pat, x, ma.start) == Some(ma);
  }

  /**
    Writing `PORT = ...` over a `PORT` inside a line that starts with
    `LAST_PORT` leaves a line that still starts with `LAST_PORT`: the
    `PORT` is either the tail of that `LAST_PORT` or lies after it.
  */
  lemma EditKeepsLastPortPrefix(x: string, a: nat, e: nat, port: Port)
    requires StartsWith(x, "LAST_PORT")
    requires a + 4 <= e <= |x| && x[a..a + 4] == "PORT"
    ensures StartsWith(x[..a] + PortAssignment(port) + x[e..], "LAST_PORT")
  {
    var repl := PortAssignment(port);
    var x' := x[..a] + repl + x[e..];
    assert x[a] == 'P' by { assert x[a] == x[a..a + 4][0]; }
    forall y | 0 <= y < 9 && y != 5 ensures x[y] != 'P' {
      assert x[y] == x[..9][y];
    }
    assert a == 5 || a >= 9;
    if a == 5 {
      assert x[5..9] == "PORT" && repl[..4] == "PORT";
      assert x'[..9] == x[..5] + repl[..4];
      assert x[..9] == x[..5] + x[5..9];
    } else {
      assert x'[..9] == x[..9];
    }
  }

  /** Replacing a dropped `LAST_PORT` line by another such line leaves the kept lines as they were. */
  lemma RewriteIgnoresDroppedLine(lines: seq<string>, k: nat, x': string, port: Port)
    requires k < |lines| && StartsWith(lines[k], "LAST_PORT") && StartsWith(x', "LAST_PORT")
    ensures RewriteEnvLines(lines[k := x'], port) == RewriteEnvLines(lines, port)
  {
    var x := lines[k];
    assert lines == lines[..k] + [x] + lines[k + 1..];
    assert lines[k := x'] == lines[..k] + [x'] + lines[k + 1..];
    RewriteEnvLinesAppend(lines[..k] + [x], lines[k + 1..], port);
    RewriteEnvLinesAppend(lines[..k], [x], port);
    RewriteEnvLinesAppend(lines[..k] + [x'], lines[k + 1..], port);
    RewriteEnvLinesAppend(lines[..k], [x'], port);
    RewriteOneLine(x, port);
    RewriteOneLine(x', port);
  }

  /**
    The `PORT` rewrite can be lost: when the first `PORT\s*=\s*\d+` of the
    file lies on a line that starts with `LAST_PORT` (as the tail of its
    `LAST_PORT = n`, or later on it), that line is dropped with the edit in
    it, and the new `.env` is exactly what the line rewrite gives for the
    unedited file: the real `PORT` line keeps its old value.
  */
  lemma PortRewriteLost(env: string, port: Port, lines: seq<string>, k: nat, off: nat, m: Match)
    requires lines == Split(env, NL) && k < |lines| && off == PieceStart(lines, k, NL)
    requires IsLeftmost(PortKey, env, m) && off <= m.start && m.end <= off + |lines[k]|
    requires StartsWith(lines[k], "LAST_PORT")
    ensures CreateEnv(env, port) == Join(RewriteEnvLines(lines, port), NL)
  {
    var a, d, e := m.start - off, m.digits - off, m.end - off;
    PortRewriteEditsOneLine(env, port, lines, k, off, m, a, e);
    PortMatchInLine(env, lines, k, off, m, a, d, e);
    EditKeepsLastPortPrefix(lines[k], a, e, port);
    RewriteIgnoresDroppedLine(lines, k, lines[k][..a] + PortAssignment(port) + lines[k][e..], port);
  }

  // ---------------------------------------------------------------------
  // The new service's Dockerfile
  // ---------------------------------------------------------------------

  /** The text `EXPOSE <port>` written over the first `EXPOSE\s*\d+`. */
  function ExposeLine(port: Port): string
  {
    "EXPOSE " + PortText(port)
  }

  /** `createDockerFileForNewService`: the leftmost `EXPOSE\s*\d+` becomes `EXPOSE <port>`. */
  function CreateDockerfile(docker: string, port: Port): (r: string)
    ensures Leftmost(ExposeKey, docker).None? ==> r == docker
    ensures Leftmost(ExposeKey, docker).Some? ==>
      var m := Leftmost(ExposeKey, docker).value;
      r == docker[..m.start] + ExposeLine(port) + docker[m.end..]
  {
    ReplaceFirst(ExposeKey, docker, ExposeLine(port))
  }

  /**
    What the Dockerfile rewrite changes: exactly the leftmost `EXPOSE`
    match, with every character before and after it kept; a Dockerfile
    without a match is copied unchanged.
  */
  lemma DockerfileEdits(docker: string, port: Port)
    ensures (forall q :: MatchAt(ExposeKey, docker, q).None?) ==> CreateDockerfile(docker, port) == docker
    ensures forall m :: IsLeftmost(ExposeKey, docker, m) ==>
      var r, x := CreateDockerfile(docker, port), ExposeLine(port);
      && |r| == |docker| - (m.end - m.start) + |x|
      && r[..m.start] == docker[..m.start]
      && r[m.start..m.start + |x|] == x
      && r[m.start + |x|..] == docker[m.end..]
  {
    forall m | IsLeftmost(ExposeKey, docker, m)
      ensures var r, x := CreateDockerfile(docker, port), ExposeLine(port);
        && |r| == |docker| - (m.end - m.start) + |x|
        && r[..m.start] == docker[..m.start]
        && r[m.start..m.start + |x|] == x
        && r[m.start + |x|..] == docker[m.end..]
    {
      ReplaceKeepsContext(ExposeKey, docker, ExposeLine(port), m);
    }
  }

  /**
    When the `EXPOSE` match lies inside line `k` (at `a`..`e` of that
    line), every other line of the Dockerfile is kept, in order, and a line
    that is nothing but the match becomes exactly `EXPOSE <port>`.
  */
  lemma DockerfileEditsOneLine(docker: string, port: Port, lines: seq<string>, k: nat, off: nat, m: Match, a: nat, e: nat)
    requires lines == Split(docker, NL) && k < |lines| && off == PieceStart(lines, k, NL)
    requires IsLeftmost(ExposeKey, docker, m) && off <= m.start && m.end <= off + |lines[k]|
    requires a == m.start - off && e == m.end - off
    ensures Split(CreateDockerfile(docker, port), NL) == lines[k := lines[k][..a] + ExposeLine(port) + lines[k][e..]]
    ensures a == 0 && e == |lines[k]| ==> lines[k][..a] + ExposeLine(port) + lines[k][e..] == ExposeLine(port)
  {
    NoNewlineAround("EXPOSE ", port, "");
    assert ExposeLine(port) + "" == ExposeLine(port);
    ReplaceInLine(ExposeKey, docker, ExposeLine(port), lines, k, off, m, a, e);
    if a == 0 && e == |lines[k]| {
      SpliceWhole(lines[k], a, e, ExposeLine(port));
    }
  }
}

/**
  Service names: the validation every run applies to the typed name
  (`validateService`) and the PascalCase form the templates derive from it
  (`getServiceInPascalCase`).
*/
module Names {
  import opened Wrappers
  import opened Text

  /** Why a name is refused; the source throws an `Error` with a message for each. */
  datatype NameError =
    | NameRequired      // "Service name is required"
    | SymbolNotAllowed  // "Space or any symbol not allowed in service name ..."
    | EmptySegment      // `item[0]` is `undefined` and `.toUpperCase()` throws

  /** The character class `[A-Za-z0-9-]`. */
  predicate IsNameChar(c: char)
  {
    IsUpper(c) || IsLower(c) || IsDigit(c) || c == '-'
  }

  predicate AllNameChars(s: string)
  {
    forall i :: 0 <= i < |s| ==> IsNameChar(s[i])
  }

  /** `/^[A-Za-z0-9-]+$/.test(s)`. */
  predicate MatchesNamePattern(s: string)
  {
    |s| > 0 && AllNameChars(s)
  }

  /** `toLowerCase` on the ASCII range, character by character. */
  function Lower(s: string): (r: string)
    ensures |r| == |s|
    ensures forall i :: 0 <= i < |s| ==> r[i] == ToLowerChar(s[i])
    ensures forall i :: 0 <= i < |r| ==> !IsUpper(r[i])
  {
    seq(|s|, i requires 0 <= i < |s| => ToLowerChar(s[i]))
  }

  /**
    `validateService`: the empty name is refused, then any character
    outside `[A-Za-z0-9-]`; an accepted name is returned lower-cased.
  */
  function ValidateService(s: string): (r: Result<string, NameError>)
    ensures r == Err(NameRequired) <==> |s| == 0
    ensures r == Err(SymbolNotAllowed) <==> |s| > 0 && !AllNameChars(s)
    ensures r.Ok? <==> MatchesNamePattern(s)
    ensures r.Ok? ==> |r.value| == |s| && MatchesNamePattern(r.value)
    ensures r.Ok? ==> forall i :: 0 <= i < |s| ==> !IsUpper(r.value[i])
    ensures r.Ok? ==> forall i :: 0 <= i < |s| ==> (IsUpper(s[i]) <==> r.value[i] != s[i])
    ensures r.Ok? ==> forall i :: 0 <= i < |s| && IsUpper(s[i]) ==> IsLower(r.value[i]) && ToUpperChar(r.value[i]) == s[i]
  {
    if |s| == 0 then Err(NameRequired)
    else if !AllNameChars(s) then Err(SymbolNotAllowed)
    else Ok(Lower(s))
  }

  /** Validation is idempotent: a validated name validates to itself. */
  lemma ValidateIdempotent(s: string)
    requires ValidateService(s).Ok?
    ensures ValidateService(ValidateService(s).value) == ValidateService(s)
  {
    var v := ValidateService(s).value;
    assert Lower(v) == v;
  }

  /** A name that is already lower case is accepted unchanged exactly when it matches the pattern. */
  lemma ValidateKeepsLowerCase(s: string)
    requires forall i :: 0 <= i < |s| ==> !IsUpper(s[i])
    ensures ValidateService(s) == Ok(s) <==> MatchesNamePattern(s)
  {
    if MatchesNamePattern(s) {
      assert Lower(s) == s;
    }
  }

  /** `Order-Service` is accepted and lower-cased to `order-service`. */
  lemma ValidateExample()
    ensures ValidateService("Order-Service") == Ok("order-service")
  {
    var s := "Order-Service";
    assert forall i :: 0 <= i < |s| ==> IsNameChar(s[i]);
    assert Lower(s) == "order-service";
  }

  // ---------------------------------------------------------------------
  // getServiceInPascalCase
  // ---------------------------------------------------------------------

  /** `item[0].toUpperCase() + item.slice(1)` for a non-empty segment. */
  function Capitalize(seg: string): (r: string)
    requires |seg| > 0
    ensures |r| == |seg| && r[1..] == seg[1..]
    ensures r[0] == ToUpperChar(seg[0])
  {
    [ToUpperChar(seg[0])] + seg[1..]
  }

  predicate NoEmptySegment(segs: seq<string>)
  {
    forall j :: 0 <= j < |segs| ==> |segs[j]| > 0
  }

  /** `arr.map(...)` with the capitalising callback. */
  function CapitalizeAll(segs: seq<string>): (r: seq<string>)
    requires NoEmptySegment(segs)
    ensures |r| == |segs|
    ensures forall j :: 0 <= j < |segs| ==> r[j] == Capitalize(segs[j])
  {
    seq(|segs|, j requires 0 <= j < |segs| => Capitalize(segs[j]))
  }

  /** `tmp.join("")`. */
  function Concat(pieces: seq<string>): string
  {
    if |pieces| == 0 then "" else pieces[0] + Concat(pieces[1..])
  }

  /**
    `getServiceInPascalCase`: split on `-`, capitalise each segment, join.
    An empty segment (a leading, trailing or doubled hyphen, or the empty
    name) makes the source throw.
  */
  function PascalCase(s: string): (r: Result<string, NameError>)
    ensures r.Err? ==> r.error == EmptySegment
  {
    var segs := Split(s, '-');
    if NoEmptySegment(segs) then Ok(Concat(CapitalizeAll(segs))) else Err(EmptySegment)
  }

  // ---------------------------------------------------------------------
  // An independent, character-level description
  // ---------------------------------------------------------------------

  /** The names whose hyphens separate non-empty segments. */
  predicate WellHyphenated(s: string)
  {
    && |s| > 0 && s[0] != '-'
    && HyphensSeparate(s)
  }

  /** Every hyphen is followed by a character that is not a hyphen. */
  predicate HyphensSeparate(s: string)
  {
    forall i :: 0 <= i < |s| && s[i] == '-' ==> i + 1 < |s| && s[i + 1] != '-'
  }

  /**
    One left-to-right pass: hyphens are dropped, and the character after a
    hyphen (or the first one, when `upper` holds) is upper-cased.
  */
  function Scan(s: string, upper: bool): string
  {
    if |s| == 0 then ""
    else if s[0] == '-' then Scan(s[1..], true)
    else [if upper then ToUpperChar(s[0]) else s[0]] + Scan(s[1..], false)
  }

  /** The first segment of a split is empty exactly when the text is empty or starts with the separator. */
  lemma FirstSegmentEmpty(t: string)
    ensures |Split(t, '-')[0]| == 0 <==> |t| == 0 || t[0] == '-'
  {
  }

  /** The segments after the first are all non-empty exactly when every hyphen separates. */
  lemma {:induction false} LaterSegmentsNonEmpty(t: string)
    ensures LaterNonEmpty(Split(t, '-')) <==> HyphensSeparate(t)
    decreases |t|
  {
    if |t| > 0 {
      LaterSegmentsNonEmpty(t[1..]);
      FirstSegmentEmpty(t[1..]);
      HyphensSeparateCons(t);
      LaterNonEmptyCons(t);
    }
  }

  predicate LaterNonEmpty(segs: seq<string>)
  {
    forall j :: 1 <= j < |segs| ==> |segs[j]| > 0
  }

  /** How the hyphen condition on `t` relates to the one on `t[1..]`. */
  lemma HyphensSeparateCons(t: string)
    requires |t| > 0
    ensures HyphensSeparate(t) <==> (t[0] == '-' ==> 1 < |t| && t[1] != '-') && HyphensSeparate(t[1..])
  {
    var u := t[1..];
    if HyphensSeparate(t) {
      forall i | 0 <= i < |u| && u[i] == '-' ensures i + 1 < |u| && u[i + 1] != '-' {
        assert t[i + 1] == u[i];
      }
    }
    if (t[0] == '-' ==> 1 < |t| && t[1] != '-') && HyphensSeparate(u) {
      forall i | 0 <= i < |t| && t[i] == '-' ensures i + 1 < |t| && t[i + 1] != '-' {
        if i > 0 { assert u[i - 1] == t[i]; }
      }
    }
  }

  /** How the later segments of `Split(t)` relate to those of `Split(t[1..])`. */
  lemma LaterNonEmptyCons(t: string)
    requires |t| > 0
    ensures var rest := Split(t[1..], '-');
            LaterNonEmpty(Split(t, '-')) <==> (if t[0] == '-' then |rest[0]| > 0 && LaterNonEmpty(rest) else LaterNonEmpty(rest))
  {
    var rest := Split(t[1..], '-');
    if t[0] == '-' {
      LaterAfterEmptyHead(Split(t, '-'), rest);
    } else {
      LaterAfterNewHead(Split(t, '-'), rest, [t[0]] + rest[0]);
    }
  }

  lemma LaterAfterEmptyHead(segs: seq<string>, rest: seq<string>)
    requires |rest| >= 1 && segs == [""] + rest
    ensures LaterNonEmpty(segs) <==> |rest[0]| > 0 && LaterNonEmpty(rest)
  {
    if LaterNonEmpty(segs) {
      assert segs[1] == rest[0];
      forall j | 1 <= j < |rest| ensures |rest[j]| > 0 { assert segs[j + 1] == rest[j]; }
    }
    if |rest[0]| > 0 && LaterNonEmpty(rest) {
      forall j | 1 <= j < |segs| ensures |segs[j]| > 0 { assert segs[j] == rest[j - 1]; }
    }
  }

  lemma LaterAfterNewHead(segs: seq<string>, rest: seq<string>, x: string)
    requires |rest| >= 1 && segs == [x] + rest[1..]
    ensures LaterNonEmpty(segs) <==> LaterNonEmpty(rest)
  {
    if LaterNonEmpty(segs) {
      forall j | 1 <= j < |rest| ensures |rest[j]| > 0 { assert segs[j] == rest[j]; }
    }
    if LaterNonEmpty(rest) {
      forall j | 1 <= j < |segs| ensures |segs[j]| > 0 { assert segs[j] == rest[j]; }
    }
  }

  /** The split has no empty segment exactly when the name is well hyphenated. */
  lemma NoEmptySegmentIff(s: string)
    ensures NoEmptySegment(Split(s, '-')) <==> WellHyphenated(s)
  {
    FirstSegmentEmpty(s);
    LaterSegmentsNonEmpty(s);
  }

  /** `getServiceInPascalCase` throws exactly on the names that are not well hyphenated. */
  lemma PascalCaseDefinedIff(s: string)
    ensures PascalCase(s).Ok? <==> WellHyphenated(s)
  {
    NoEmptySegmentIff(s);
  }

  lemma ConcatCapitalizedCons(segs: seq<string>)
    requires |segs| > 0 && NoEmptySegment(segs)
    ensures Concat(CapitalizeAll(segs)) == Capitalize(segs[0]) + Concat(CapitalizeAll(segs[1..]))
  {
    assert CapitalizeAll(segs)[1..] == CapitalizeAll(segs[1..]);
  }

  /** The split-map-join computation and the one-pass scan agree, segment by segment. */
  lemma {:induction false} ScanSplit(t: string)
    requires LaterNonEmpty(Split(t, '-'))
    ensures var segs := Split(t, '-');
            && NoEmptySegment(segs[1..])
            && Scan(t, false) == segs[0] + Concat(CapitalizeAll(segs[1..]))
            && (|segs[0]| > 0 ==> Scan(t, true) == Capitalize(segs[0]) + Concat(CapitalizeAll(segs[1..])))
            && (|segs[0]| == 0 ==> Scan(t, true) == Concat(CapitalizeAll(segs[1..])))
    decreases |t|
  {
    var segs := Split(t, '-');
    if |t| > 0 {
      var u := t[1..];
      var rest := Split(u, '-');
      LaterNonEmptyCons(t);
      if t[0] == '-' {
        assert segs == [""] + rest;
        assert segs[1..] == rest;
        ScanSplit(u);
        ConcatCapitalizedCons(rest);
      } else {
        assert segs == [[t[0]] + rest[0]] + rest[1..];
        assert segs[1..] == rest[1..];
        ScanSplit(u);
        assert [t[0]] + rest[0] + Concat(CapitalizeAll(rest[1..])) == [t[0]] + (rest[0] + Concat(CapitalizeAll(rest[1..])));
        assert Capitalize(segs[0]) == [ToUpperChar(t[0])] + rest[0];
        assert [ToUpperChar(t[0])] + rest[0] + Concat(CapitalizeAll(rest[1..])) == [ToUpperChar(t[0])] + (rest[0] + Concat(CapitalizeAll(rest[1..])));
      }
    } else {
      assert segs == [""];
    }
  }

  /** The PascalCase form, when defined, is the one-pass scan of the name. */
  lemma PascalCaseIsScan(s: string)
    requires PascalCase(s).Ok?
    ensures PascalCase(s).value == Scan(s, true)
  {
    var segs := Split(s, '-');
    ScanSplit(s);
    ConcatCapitalizedCons(segs);
  }

  lemma {:induction false} ScanFacts(s: string, upper: bool)
    ensures '-' !in Scan(s, upper)
    ensures |Scan(s, upper)| + Count(s, '-') == |s|
    ensures |s| > 0 && s[0] != '-' ==> |Scan(s, upper)| > 0 && Scan(s, upper)[0] == (if upper then ToUpperChar(s[0]) else s[0])
    decreases |s|
  {
    if |s| > 0 {
      ScanFacts(s[1..], s[0] == '-' || false);
      ScanFacts(s[1..], true);
      ScanFacts(s[1..], false);
    }
  }

  /**
    The PascalCase form has no hyphen, is as long as the name without its
    hyphens, and starts with the name's first character upper-cased.
  */
  lemma PascalCaseShape(s: string)
    requires PascalCase(s).Ok?
    ensures var p := PascalCase(s).value;
            && '-' !in p
            && |p| == |s| - Count(s, '-')
            && |p| > 0 && p[0] == ToUpperChar(s[0])
  {
    PascalCaseIsScan(s);
    PascalCaseDefinedIff(s);
    ScanFacts(s, true);
  }

  /** Applying `getServiceInPascalCase` to its own output changes nothing. */
  lemma PascalCaseIdempotent(s: string)
    requires PascalCase(s).Ok?
    ensures PascalCase(PascalCase(s).value) == PascalCase(s)
  {
    var p := PascalCase(s).value;
    PascalCaseShape(s);
    SplitSingle(p, '-');
    assert ToUpperChar(p[0]) == p[0];
    assert [p[0]] + p[1..] == p;
    assert Capitalize(p) == p;
    assert NoEmptySegment([p]);
    assert CapitalizeAll([p]) == [p];
    assert [p][1..] == [];
    assert Concat([p]) == p + Concat([]);
    assert p + "" == p;
    assert PascalCase(p) == Ok(Concat(CapitalizeAll([p])));
  }

  /** The example the tool's templates rely on. */
  lemma PascalCaseExample()
    ensures PascalCase("order-service") == Ok("OrderService")
  {
    ExampleSegments();
    ExampleCapitalized();
    PascalCaseOfSegments("order-service", ["order", "service"]);
    ExampleJoined();
  }

  lemma PascalCaseOfSegments(s: string, segs: seq<string>)
    requires Split(s, '-') == segs && NoEmptySegment(segs)
    ensures PascalCase(s) == Ok(Concat(CapitalizeAll(segs)))
  {
  }

  lemma ExampleSegments()
    ensures Split("order-service", '-') == ["order", "service"]
  {
    assert "order" + ['-'] + "service" == "order-service";
    SplitTwo("order", "service");
  }

  lemma SplitTwo(x: string, y: string)
    requires '-' !in x && '-' !in y
    ensures Split(x + ['-'] + y, '-') == [x, y]
  {
    SplitSingle(y, '-');
    SplitCons(x, y, '-');
  }

  lemma ExampleCapitalized()
    ensures NoEmptySegment(["order", "service"])
    ensures CapitalizeAll(["order", "service"]) == ["Order", "Service"]
  {
    assert Capitalize("order") == "Order";
    assert Capitalize("service") == "Service";
  }

  lemma ExampleJoined()
    ensures Concat(["Order", "Service"]) == "OrderService"
  {
    assert ["Order", "Service"][1..] == ["Service"] && ["Service"][1..] == [];
    assert Concat(["Service"]) == "Service";
    assert "Order" + "Service" == "OrderService";
  }
}

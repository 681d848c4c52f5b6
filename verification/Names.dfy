/** `policy.ValidName`: the regular expression, and the label grammar it denotes. */
module Names {
  import opened Text

  // ---- Regular expressions -------------------------------------------------

  datatype CharClass = Star | Dot | LowerLetter | LetterDigit | LetterDigitHyphen

  predicate InClass(k: CharClass, c: char) {
    match k
    case Star => c == '*'
    case Dot => c == '.'
    case LowerLetter => 'a' <= c <= 'z'
    case LetterDigit => 'a' <= c <= 'z' || '0' <= c <= '9'
    case LetterDigitHyphen => 'a' <= c <= 'z' || '0' <= c <= '9' || c == '-'
  }

  /** `Repeat(k, lo, hi)` is a counted repetition of one character class, `k{lo,hi}`. */
  datatype Regex =
    | Repeat(k: CharClass, lo: nat, hi: nat)
    | Cat(first: Regex, second: Regex)
    | Maybe(body: Regex)
    | Plus(body: Regex)

  function One(k: CharClass): Regex {
    Repeat(k, 1, 1)
  }

  /** The language of a regular expression: every way of splitting the text is tried. */
  predicate Matches(re: Regex, s: string)
    decreases |s|, re
  {
    match re
    case Repeat(k, lo, hi) => lo <= |s| <= hi && forall c :: c in s ==> InClass(k, c)
    case Cat(a, b) => exists i :: 0 <= i <= |s| && Matches(a, s[..i]) && Matches(b, s[i..])
    case Maybe(a) => s == [] || Matches(a, s)
    case Plus(a) => Matches(a, s) ||
                    exists i :: 0 < i < |s| && Matches(a, s[..i]) && Matches(re, s[i..])
  }

  // The expression at policy.go line 39, piece by piece: an optional wildcard, dotted labels,
  // and a top label of letters.
  const WILDCARD := Cat(One(Star), One(Dot))
  const TAIL := Cat(Repeat(LetterDigitHyphen, 0, 61), One(LetterDigit))
  const LABEL := Cat(One(LetterDigit), Maybe(TAIL))
  const LABELS := Plus(Cat(LABEL, One(Dot)))
  const TOP := Repeat(LowerLetter, 2, 63)
  const BODY := Cat(LABELS, TOP)
  const NAME := Cat(Maybe(WILDCARD), BODY)

  predicate ValidName(s: string) {
    |s| <= 253 && Matches(NAME, s)
  }

  // ---- The label grammar ---------------------------------------------------

  /** Splits at every dot, like strings.Split(s, "."). */
  function Labels(s: string): (ls: seq<string>)
    ensures |ls| >= 1
  {
    LabelsFrom(s, 0)
  }

  /** The labels of `s`, given that s[..i] holds no dot. */
  function LabelsFrom(s: string, i: nat): (ls: seq<string>)
    requires i <= |s|
    ensures |ls| >= 1
    decreases |s|, |s| - i
  {
    if i == |s| then [s]
    else if s[i] == '.' then [s[..i]] + LabelsFrom(s[i + 1..], 0)
    else LabelsFrom(s, i + 1)
  }

  predicate AllHostChars(s: string) {
    forall c :: c in s ==> 'a' <= c <= 'z' || '0' <= c <= '9' || c == '-'
  }

  /** A host label of sections 2.3.1 of RFC 1035 and 2.1 of RFC 1123, lowercase only. */
  predicate IsLabel(l: string) {
    1 <= |l| <= 63 && l[0] != '-' && l[|l| - 1] != '-' && AllHostChars(l)
  }

  predicate IsTopLabel(l: string) {
    2 <= |l| <= 63 && forall c :: c in l ==> 'a' <= c <= 'z'
  }

  /** At least two labels, the last one alphabetic. */
  predicate IsLabelled(ls: seq<string>) {
    |ls| >= 2 && IsTopLabel(ls[|ls| - 1]) && forall i :: 0 <= i < |ls| - 1 ==> IsLabel(ls[i])
  }

  predicate IsWildcard(s: string) {
    HasPrefix(s, "*.")
  }

  /** The part of a pattern behind an optional leading "*.". */
  function Body(s: string): string {
    if IsWildcard(s) then s[2..] else s
  }

  predicate IsPattern(s: string) {
    |s| <= 253 && IsLabelled(Labels(Body(s)))
  }

  // ---- The regular expression denotes the grammar --------------------------

  lemma {:induction false} OneIs(k: CharClass, s: string)
    ensures Matches(One(k), s) <==> |s| == 1 && InClass(k, s[0])
  {
    if |s| == 1 { assert s[0] in s; }
  }

  lemma {:induction false} HostCharsAre(s: string)
    ensures AllHostChars(s) <==> forall c :: c in s ==> InClass(LetterDigitHyphen, c)
  {
  }

  lemma {:induction false} TailSound(t: string, j: nat)
    requires j <= |t| && Matches(TAIL.first, t[..j]) && Matches(TAIL.second, t[j..])
    ensures 1 <= |t| <= 62 && AllHostChars(t) && t[|t| - 1] != '-'
  {
    OneIs(LetterDigit, t[j..]);
    HostCharsAre(t[..j]);
    assert t == t[..j] + t[j..];
  }

  lemma {:induction false} TailComplete(t: string)
    requires 1 <= |t| <= 62 && AllHostChars(t) && t[|t| - 1] != '-'
    ensures Matches(TAIL.first, t[..|t| - 1]) && Matches(TAIL.second, t[|t| - 1..])
  {
    assert t[|t| - 1] in t;
    OneIs(LetterDigit, t[|t| - 1..]);
    HostCharsAre(t);
    forall c | c in t[..|t| - 1] ensures InClass(LetterDigitHyphen, c) { assert c in t; }
  }

  lemma {:induction false} TailIs(t: string)
    ensures Matches(TAIL, t) <==> 1 <= |t| <= 62 && AllHostChars(t) && t[|t| - 1] != '-'
  {
    if Matches(TAIL, t) {
      var j :| 0 <= j <= |t| && Matches(TAIL.first, t[..j]) && Matches(TAIL.second, t[j..]);
      TailSound(t, j);
    }
    if 1 <= |t| <= 62 && AllHostChars(t) && t[|t| - 1] != '-' { TailComplete(t); }
  }

  lemma {:induction false} LabelIs(s: string)
    ensures Matches(LABEL, s) <==> IsLabel(s)
  {
    if Matches(LABEL, s) {
      var i :| 0 <= i <= |s| && Matches(One(LetterDigit), s[..i]) && Matches(Maybe(TAIL), s[i..]);
      OneIs(LetterDigit, s[..i]);
      TailIs(s[i..]);
      assert s == [s[0]] + s[1..];
    }
    if IsLabel(s) {
      assert s[0] in s;
      OneIs(LetterDigit, s[..1]);
      TailIs(s[1..]);
      assert forall c :: c in s[1..] ==> c in s;
      assert Matches(Maybe(TAIL), s[1..]);
    }
  }

  lemma {:induction false} DottedLabelIs(s: string)
    ensures Matches(LABELS.body, s) <==> s != [] && s[|s| - 1] == '.' && IsLabel(s[..|s| - 1])
  {
    if Matches(LABELS.body, s) {
      var i :| 0 <= i <= |s| && Matches(LABEL, s[..i]) && Matches(One(Dot), s[i..]);
      OneIs(Dot, s[i..]);
      LabelIs(s[..i]);
    }
    if s != [] && s[|s| - 1] == '.' && IsLabel(s[..|s| - 1]) {
      LabelIs(s[..|s| - 1]);
      OneIs(Dot, s[|s| - 1..]);
    }
  }

  lemma {:induction false} LabelsSplit(s: string, i: nat, j: nat)
    requires i <= j < |s| && s[j] == '.' && forall k :: i <= k < j ==> s[k] != '.'
    ensures LabelsFrom(s, i) == [s[..j]] + Labels(s[j + 1..])
    decreases j - i
  {
    if i < j { LabelsSplit(s, i + 1, j); }
  }

  lemma {:induction false} LabelsWhole(s: string, i: nat)
    requires i <= |s| && forall k :: i <= k < |s| ==> s[k] != '.'
    ensures LabelsFrom(s, i) == [s]
    decreases |s| - i
  {
    if i < |s| { LabelsWhole(s, i + 1); }
  }

  lemma {:induction false} FirstDot(s: string, i: nat) returns (j: nat)
    requires i <= |s|
    ensures i <= j <= |s| && (forall k :: i <= k < j ==> s[k] != '.') && (j < |s| ==> s[j] == '.')
    decreases |s| - i
  {
    if i == |s| || s[i] == '.' { j := i; } else { j := FirstDot(s, i + 1); }
  }

  lemma NoDots(l: string)
    requires IsLabel(l) || IsTopLabel(l)
    ensures forall k :: 0 <= k < |l| ==> l[k] != '.'
  {
    forall k | 0 <= k < |l| ensures l[k] != '.' { assert l[k] in l; }
  }

  /** Peeling one label: a dotted label in front of `rest`. */
  lemma PeelLabel(s: string, j: nat)
    requires 0 < j <= |s| && s[j - 1] == '.' && IsLabel(s[..j - 1])
    ensures Labels(s) == [s[..j - 1]] + Labels(s[j..])
  {
    NoDots(s[..j - 1]);
    assert forall k :: 0 <= k < j - 1 ==> s[..j - 1][k] == s[k];
    LabelsSplit(s, 0, j - 1);
  }

  lemma {:induction false} BodyIs(s: string)
    ensures Matches(BODY, s) <==> IsLabelled(Labels(s))
    decreases |s|
  {
    if Matches(BODY, s) { BodySound(s); }
    if IsLabelled(Labels(s)) { BodyComplete(s); }
  }

  lemma {:induction false} OneLabelThenTop(s: string, i: nat)
    requires i <= |s| && Matches(LABELS.body, s[..i]) && Matches(TOP, s[i..])
    ensures IsLabelled(Labels(s))
  {
    DottedLabelIs(s[..i]);
    assert s[..i - 1] == s[..i][..i - 1];
    PeelLabel(s, i);
    NoDots(s[i..]);
    LabelsWhole(s[i..], 0);
  }

  lemma {:induction false} BodySound(s: string)
    requires Matches(BODY, s)
    ensures IsLabelled(Labels(s))
    decreases |s|
  {
    var i :| 0 <= i <= |s| && Matches(LABELS, s[..i]) && Matches(TOP, s[i..]);
    var p := s[..i];
    if Matches(LABELS.body, p) {
      OneLabelThenTop(s, i);
    } else {
      var j :| 0 < j < |p| && Matches(LABELS.body, p[..j]) && Matches(LABELS, p[j..]);
      DottedLabelIs(p[..j]);
      TwoCuts(s, j, i);
      TwoCuts(s, j - 1, j);
      PeelLabel(s, j);
      var t := s[j..];
      assert Matches(BODY, t);
      BodySound(t);
      LabelledCons(s[..j - 1], Labels(t));
    }
  }

  lemma LabelledCons(l: string, ls: seq<string>)
    requires |ls| >= 1
    ensures IsLabelled([l] + ls) <==> IsLabel(l) && (IsLabelled(ls) || (|ls| == 1 && IsTopLabel(ls[0])))
  {
    var all := [l] + ls;
    assert all[0] == l && forall i :: 0 <= i < |ls| ==> all[i + 1] == ls[i];
    if IsLabelled(all) && |ls| > 1 {
      forall i | 0 <= i < |ls| - 1 ensures IsLabel(ls[i]) { assert IsLabel(all[i + 1]); }
    }
  }

  lemma {:induction false} BodyComplete(s: string)
    requires IsLabelled(Labels(s))
    ensures Matches(BODY, s)
    decreases |s|
  {
    var d := FirstDot(s, 0);
    if d == |s| {
      LabelsWhole(s, 0);
    } else {
      LabelsSplit(s, 0, d);
      var j := d + 1;
      var t := s[j..];
      LabelledCons(s[..d], Labels(t));
      assert s[..j][..d] == s[..d];
      DottedLabelIs(s[..j]);
      if IsLabelled(Labels(t)) {
        BodyComplete(t);
        var i :| 0 <= i <= |t| && Matches(LABELS, t[..i]) && Matches(TOP, t[i..]);
        LabelsNonEmpty(t[..i]);
        var p := s[..j + i];
        TwoCuts(s, j, j + i);
        assert Matches(LABELS, p);
      } else {
        var e := FirstDot(t, 0);
        if e < |t| { LabelsSplit(t, 0, e); } else { LabelsWhole(t, 0); }
        assert Matches(LABELS, s[..j]) && Matches(TOP, s[j..]);
      }
    }
  }

  lemma {:induction false} LabelsNonEmpty(p: string)
    requires Matches(LABELS, p)
    ensures p != []
  {
    if p == [] { DottedLabelIs(p); }
  }

  /** The regular expression accepts exactly the label grammar. */
  lemma ValidNameIsPattern(s: string)
    ensures ValidName(s) <==> IsPattern(s)
  {
    if Matches(NAME, s) {
      var i :| 0 <= i <= |s| && Matches(Maybe(WILDCARD), s[..i]) && Matches(BODY, s[i..]);
      BodyIs(s[i..]);
      if i == 0 {
        assert s[i..] == s;
        NotWildcard(s);
      } else {
        WildcardIs(s[..i]);
      }
    }
    if IsLabelled(Labels(Body(s))) {
      BodyIs(Body(s));
      if IsWildcard(s) {
        WildcardIs(s[..2]);
        assert Matches(Maybe(WILDCARD), s[..2]) && Matches(BODY, s[2..]);
      } else {
        assert s[0..] == s && Matches(Maybe(WILDCARD), s[..0]);
      }
    }
  }

  lemma {:induction false} WildcardIs(s: string)
    ensures Matches(WILDCARD, s) <==> s == "*."
  {
    if Matches(WILDCARD, s) {
      var i :| 0 <= i <= |s| && Matches(One(Star), s[..i]) && Matches(One(Dot), s[i..]);
      OneIs(Star, s[..i]);
      OneIs(Dot, s[i..]);
      assert s == s[..i] + s[i..];
    }
    OneIs(Star, "*.");
    OneIs(Star, "*."[..1]);
    OneIs(Dot, "*."[1..]);
  }

  lemma NotWildcard(s: string)
    requires IsLabelled(Labels(s))
    ensures !IsWildcard(s)
  {
    if IsWildcard(s) {
      assert s[0] == '*' && s[1] == '.' && s[..1][0] in s[..1];
      LabelsSplit(s, 0, 1);
      LabelledCons(s[..1], Labels(s[2..]));
    }
  }

  /** Two labels joined by a dot make a valid name. */
  lemma TwoLabels(a: string, b: string)
    requires IsLabel(a) && IsTopLabel(b) && |a| + |b| < 253
    ensures ValidName(a + "." + b)
  {
    var s := a + "." + b;
    assert s[..|a|] == a && s[|a| + 1..] == b;
    forall k | 0 <= k < |a| ensures s[k] != '.' && s[k] != '*' { assert s[k] == a[k] && a[k] in a; }
    forall k | 0 <= k < |b| ensures b[k] != '.' { assert b[k] in b; }
    LabelsSplit(s, 0, |a|);
    LabelsWhole(b, 0);
    LabelledCons(a, [b]);
    ValidNameIsPattern(s);
  }

  // ---- What the compilers rely on ------------------------------------------

  predicate NameChar(c: char) {
    InClass(LetterDigitHyphen, c) || c == '.'
  }

  lemma {:induction false} LabelledChars(s: string)
    requires IsLabelled(Labels(s)) || IsTopLabel(s)
    ensures forall k :: 0 <= k < |s| ==> NameChar(s[k])
    ensures |s| >= 2 && s[0] != '.' && InClass(LowerLetter, s[|s| - 1])
    decreases |s|
  {
    if IsTopLabel(s) {
      forall k | 0 <= k < |s| ensures InClass(LowerLetter, s[k]) { assert s[k] in s; }
      NoDots(s);
    } else {
      var d := FirstDot(s, 0);
      if d == |s| {
        LabelsWhole(s, 0);
      } else {
        LabelsSplit(s, 0, d);
        var t := s[d + 1..];
        LabelledCons(s[..d], Labels(t));
        if !IsLabelled(Labels(t)) {
          var e := FirstDot(t, 0);
          if e < |t| { LabelsSplit(t, 0, e); } else { LabelsWhole(t, 0); }
        }
        LabelledChars(t);
        forall k | 0 <= k < |s| ensures NameChar(s[k]) {
          if k < d { assert s[..d][k] in s[..d]; } else if k > d { assert s[k] == t[k - d - 1]; }
        }
        assert s[|s| - 1] == t[|t| - 1];
      }
    }
  }

  /** A valid name never holds a colon, comma, bar, space or a second star; it ends in a
      letter, so no address literal is one; and what follows "*" is ".", a valid name. */
  lemma ValidNameShape(s: string)
    requires ValidName(s)
    ensures |s| >= 2 && InClass(LowerLetter, s[|s| - 1]) && s[0] != '.'
    ensures forall k :: 0 <= k < |s| ==> NameChar(s[k]) || (k == 0 && s[k] == '*')
    ensures s[0] == '*' <==> IsWildcard(s)
    ensures IsWildcard(s) ==> ValidName(s[2..]) && s[2] != '*'
  {
    ValidNameIsPattern(s);
    LabelledChars(Body(s));
    if IsWildcard(s) {
      forall k | 2 <= k < |s| ensures NameChar(s[k]) { assert s[k] == s[2..][k - 2]; }
      assert s[|s| - 1] == s[2..][|s| - 3];
      NotWildcard(s[2..]);
      ValidNameIsPattern(s[2..]);
    }
  }

  /** An exact name, as opposed to a wildcard pattern. */
  predicate ConcreteName(s: string) {
    ValidName(s) && !IsWildcard(s)
  }
}

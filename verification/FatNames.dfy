/** 8.3 names: how a path component becomes the eleven bytes of a directory entry, and how
    the reader turns those bytes back into a name. */
module FatNames {
  import opened Bytes
  import opened FatResult

  /** Text as its UTF-8 bytes. */
  type Text = seq<byte>

  const DOT: byte := 46
  const SLASH: byte := 47
  const SPACE: byte := 32

  predicate IsUpper(c: byte) { 65 <= c <= 90 }

  predicate IsLower(c: byte) { 97 <= c <= 122 }

  /** A letter, a digit, `_` or `-`. */
  predicate NameChar(c: byte) {
    IsUpper(c) || IsLower(c) || 48 <= c <= 57 || c == 95 || c == 45
  }

  function UpperChar(c: byte): byte { if IsLower(c) then c - 32 else c }

  function Upper(s: Text): (r: Text)
    ensures |r| == |s| && forall i | 0 <= i < |s| :: r[i] == UpperChar(s[i])
  {
    seq(|s|, i requires 0 <= i < |s| => UpperChar(s[i]))
  }

  /** `eq_ignore_ascii_case`. */
  predicate SameText(a: Text, b: Text) { Upper(a) == Upper(b) }

  /** Where `c` first occurs in `s`, or `|s|`. */
  function IndexOf(s: Text, c: byte): (i: nat)
    ensures i <= |s| && forall k | 0 <= k < i :: s[k] != c
    ensures i < |s| ==> s[i] == c
  {
    if s == [] || s[0] == c then 0 else 1 + IndexOf(s[1..], c)
  }

  function Pad(s: Text, n: nat): (r: Text)
    requires |s| <= n
    ensures |r| == n && r[..|s|] == s && forall i | |s| <= i < n :: r[i] == SPACE
  {
    s + seq(n - |s|, _ => SPACE)
  }

  /** The part before the first dot, and what follows it. */
  function BaseOf(c: Text): Text { c[..IndexOf(c, DOT)] }

  function ExtOf(c: Text): Text {
    var i := IndexOf(c, DOT);
    if i == |c| then [] else c[i + 1..]
  }

  predicate NameChars(s: Text) { forall i | 0 <= i < |s| :: NameChar(s[i]) }

  predicate Acceptable(c: Text) {
    && 0 < |BaseOf(c)| <= 8
    && |ExtOf(c)| <= 3
    && NameChars(BaseOf(c))
    && NameChars(ExtOf(c))
  }

  /** The eleven bytes a directory entry stores for `component`. */
  function ShortName(component: Text): (r: Result<Text>)
    ensures r.Ok? ==> ValidName(r.value)
  {
    if Acceptable(component) then
      var b, e := Upper(BaseOf(component)), Upper(ExtOf(component));
      TrimPad(b, 8);
      TrimPad(e, 3);
      var n := Pad(b, 8) + Pad(e, 3);
      assert n[..8] == Pad(b, 8) && n[8..] == Pad(e, 3);
      Ok(n)
    else
      Err(BadName)
  }

  /** The checks and the two copying loops of `short_name`. */
  method EncodeShortName(component: Text) returns (r: Result<Text>)
    ensures r == ShortName(component)
  {
    var base, ext := BaseOf(component), ExtOf(component);
    if base == [] || |base| > 8 || |ext| > 3 || DOT in ext {
      if DOT in ext {
        var k :| 0 <= k < |ext| && ext[k] == DOT;
        assert !NameChar(ext[k]);
      }
      return Err(BadName);
    }
    var name: Text := seq(11, _ => SPACE);
    for i := 0 to |base|
      invariant |name| == 11
      invariant forall j | 0 <= j < i :: NameChar(base[j]) && name[j] == UpperChar(base[j])
      invariant forall j | i <= j < 11 :: name[j] == SPACE
    {
      if !NameChar(base[i]) { return Err(BadName); }
      name := name[i := UpperChar(base[i])];
    }
    for i := 0 to |ext|
      invariant |name| == 11
      invariant forall j | 0 <= j < |base| :: name[j] == UpperChar(base[j])
      invariant forall j | |base| <= j < 8 :: name[j] == SPACE
      invariant forall j | 0 <= j < i :: NameChar(ext[j]) && name[8 + j] == UpperChar(ext[j])
      invariant forall j | 8 + i <= j < 11 :: name[j] == SPACE
    {
      if !NameChar(ext[i]) { return Err(BadName); }
      name := name[8 + i := UpperChar(ext[i])];
    }
    assert name == Pad(Upper(base), 8) + Pad(Upper(ext), 3);
    r := Ok(name);
  }

  // ---- reading a name back ----

  /** The white space `trim_end` removes from ASCII text. */
  predicate Blank(c: byte) { c == SPACE || 9 <= c <= 13 }

  function TrimEnd(s: Text): (r: Text)
    ensures r <= s
    ensures r != [] ==> !Blank(r[|r| - 1])
  {
    if s != [] && Blank(s[|s| - 1]) then TrimEnd(s[..|s| - 1]) else s
  }

  /** The name the reader gives the entry whose first eleven bytes are `n`. */
  function Display(n: Text): Text
    requires |n| == 11
  {
    var base, ext := TrimEnd(n[..8]), TrimEnd(n[8..]);
    if ext == [] then base else base + [DOT] + ext
  }

  predicate UpperNameChars(s: Text) {
    forall i | 0 <= i < |s| :: NameChar(s[i]) && !IsLower(s[i])
  }

  /** The shape `ShortName` gives every name it accepts. */
  ghost predicate ValidName(n: Text) {
    && |n| == 11
    && var b, e := TrimEnd(n[..8]), TrimEnd(n[8..]);
    && b != [] && UpperNameChars(b) && UpperNameChars(e)
    && n == Pad(b, 8) + Pad(e, 3)
  }

  lemma {:induction false} TrimPad(s: Text, n: nat)
    requires |s| <= n && NameChars(s)
    ensures TrimEnd(Pad(s, n)) == s
    decreases n - |s|
  {
    if |s| < n {
      assert Pad(s, n)[..n - 1] == Pad(s, n - 1);
      TrimPad(s, n - 1);
    } else {
      assert Pad(s, n) == s;
    }
  }

  predicate EndsInDot(c: Text) { c != [] && c[|c| - 1] == DOT }

  lemma FirstDot(c: Text, i: nat)
    requires i <= |c| && (forall k | 0 <= k < i :: c[k] != DOT) && (i < |c| ==> c[i] == DOT)
    ensures IndexOf(c, DOT) == i
  {
  }

  /** Upper-casing distributes over the three parts of a name with an extension. */
  lemma UpperJoins(b: Text, e: Text)
    ensures Upper(b + [DOT] + e) == Upper(b) + [DOT] + Upper(e)
  {
  }

  lemma PartsOfShortName(c: Text)
    requires Acceptable(c)
    ensures ShortName(c).Ok?
    ensures TrimEnd(ShortName(c).value[..8]) == Upper(BaseOf(c))
    ensures TrimEnd(ShortName(c).value[8..]) == Upper(ExtOf(c))
  {
    var b, e := Upper(BaseOf(c)), Upper(ExtOf(c));
    TrimPad(b, 8);
    TrimPad(e, 3);
    var n := ShortName(c).value;
    assert n[..8] == Pad(b, 8) && n[8..] == Pad(e, 3);
  }

  /** A component is its base, or base, dot and extension. */
  lemma ComponentShape(c: Text)
    requires Acceptable(c)
    ensures ExtOf(c) == [] && EndsInDot(c) ==> c[..|c| - 1] == BaseOf(c)
    ensures ExtOf(c) == [] && !EndsInDot(c) ==> c == BaseOf(c)
    ensures ExtOf(c) != [] ==> !EndsInDot(c) && c == BaseOf(c) + [DOT] + ExtOf(c)
  {
    var i, e := IndexOf(c, DOT), ExtOf(c);
    if e != [] {
      assert c[|c| - 1] == e[|e| - 1];
    }
  }

  /** What the name of an accepted component reads as: the component in capitals, with a
      trailing dot gone. */
  lemma DisplayOfShortName(c: Text)
    requires ShortName(c).Ok?
    ensures Display(ShortName(c).value) == Upper(if EndsInDot(c) then c[..|c| - 1] else c)
  {
    PartsOfShortName(c);
    ComponentShape(c);
    UpperJoins(BaseOf(c), ExtOf(c));
  }

  /** A stored name is found by exactly the components that are stored under it, trailing
      dots excepted: those name nothing on the volume. */
  lemma NameMatches(n: Text, c: Text)
    requires ValidName(n)
    ensures SameText(Display(n), c) <==> (ShortName(c) == Ok(n) && !EndsInDot(c))
  {
    if ShortName(c) == Ok(n) && !EndsInDot(c) { StoredIsMatched(n, c); }
    if SameText(Display(n), c) { MatchedIsStored(n, c); }
  }

  lemma StoredIsMatched(n: Text, c: Text)
    requires ShortName(c) == Ok(n) && !EndsInDot(c)
    ensures SameText(Display(n), c)
  {
    DisplayOfShortName(c);
    UpperTwice(c);
  }

  lemma UpperTwice(c: Text)
    ensures Upper(Upper(c)) == Upper(c)
  {
  }

  /** Text that matches capitals has those capitals, character by character. */
  lemma MatchesCapitals(d: Text, c: Text)
    requires SameText(d, c) && forall i | 0 <= i < |d| :: !IsLower(d[i])
    ensures |d| == |c| && forall i | 0 <= i < |c| :: UpperChar(c[i]) == d[i]
  {
    assert |Upper(d)| == |Upper(c)|;
    forall i | 0 <= i < |c| ensures UpperChar(c[i]) == d[i] {
      assert Upper(d)[i] == Upper(c)[i];
    }
  }

  lemma MatchedIsStored(n: Text, c: Text)
    requires ValidName(n)
    requires SameText(Display(n), c)
    ensures ShortName(c) == Ok(n) && !EndsInDot(c)
  {
    var b, e := TrimEnd(n[..8]), TrimEnd(n[8..]);
    MatchedJoin(b, e, if e == [] then b else b + [DOT] + e, c);
  }

  lemma MatchedJoin(b: Text, e: Text, d: Text, c: Text)
    requires b != [] && |b| <= 8 && |e| <= 3 && UpperNameChars(b) && UpperNameChars(e)
    requires d == (if e == [] then b else b + [DOT] + e) && SameText(d, c)
    ensures ShortName(c) == Ok(Pad(b, 8) + Pad(e, 3)) && !EndsInDot(c)
  {
    JoinHasCapitals(b, e, d);
    MatchesCapitals(d, c);
    forall i | 0 <= i < |b| ensures UpperChar(c[i]) == b[i] { assert d[i] == b[i]; }
    forall i | 0 <= i < |e| ensures UpperChar(c[|b| + 1 + i]) == e[i] { assert d[|b| + 1 + i] == e[i]; }
    assert e != [] ==> UpperChar(c[|b|]) == d[|b|] == DOT;
    MatchedParts(b, e, c);
    ComponentShape(c);
  }

  lemma JoinHasCapitals(b: Text, e: Text, d: Text)
    requires UpperNameChars(b) && UpperNameChars(e)
    requires d == if e == [] then b else b + [DOT] + e
    ensures forall i | 0 <= i < |d| :: !IsLower(d[i])
  {
    forall i | 0 <= i < |d| ensures !IsLower(d[i]) {
      assert i < |b| ==> d[i] == b[i];
      assert i > |b| ==> d[i] == e[i - |b| - 1];
    }
  }

  lemma MatchedParts(b: Text, e: Text, c: Text)
    requires b != [] && |b| <= 8 && |e| <= 3 && UpperNameChars(b) && UpperNameChars(e)
    requires |c| == if e == [] then |b| else |b| + 1 + |e|
    requires forall i | 0 <= i < |b| :: UpperChar(c[i]) == b[i]
    requires e != [] ==> c[|b|] == DOT
    requires forall i | 0 <= i < |e| :: UpperChar(c[|b| + 1 + i]) == e[i]
    ensures Acceptable(c) && Upper(BaseOf(c)) == b && Upper(ExtOf(c)) == e
  {
    assert forall i | 0 <= i < |b| :: NameChar(b[i]) && c[i] != DOT;
    FirstDot(c, |b|);
    assert BaseOf(c) == c[..|b|];
    assert |ExtOf(c)| == |e| && forall i | 0 <= i < |e| :: ExtOf(c)[i] == c[|b| + 1 + i];
    UpperIs(BaseOf(c), b);
    UpperIs(ExtOf(c), e);
  }

  lemma UpperIs(c: Text, d: Text)
    requires |c| == |d| && forall i | 0 <= i < |c| :: UpperChar(c[i]) == d[i]
    requires UpperNameChars(d)
    ensures Upper(c) == d && NameChars(c)
  {
    forall i | 0 <= i < |c| ensures NameChar(c[i]) {
      assert NameChar(d[i]);
    }
  }
}

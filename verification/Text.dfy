/** The few string operations the parsers and the classifier rely on. */
module Text {

  /** White space, as `str.strip` with no argument removes it. */
  predicate IsSpace(c: char) {
    || '\t' <= c <= '\r'
    || '\U{1C}' <= c <= ' '
    || c in {'\U{85}', '\U{A0}', '\U{1680}', '\U{2028}', '\U{2029}', '\U{202F}', '\U{205F}', '\U{3000}'}
    || '\U{2000}' <= c <= '\U{200A}'
  }

  predicate Blank(s: string) {
    forall c :: c in s ==> IsSpace(c)
  }

  predicate StartsWith(s: string, p: string) {
    |p| <= |s| && s[..|p|] == p
  }

  function Lstrip(s: string): string
    decreases |s|
  {
    if |s| > 0 && IsSpace(s[0]) then Lstrip(s[1..]) else s
  }

  function Rstrip(s: string): string
    decreases |s|
  {
    if |s| > 0 && IsSpace(s[|s| - 1]) then Rstrip(s[..|s| - 1]) else s
  }

  function Strip(s: string): string {
    Rstrip(Lstrip(s))
  }

  /** Neither end is white space: what `Strip` leaves alone. */
  predicate Trimmed(s: string) {
    |s| > 0 ==> !IsSpace(s[0]) && !IsSpace(s[|s| - 1])
  }

  lemma StripTrimmed(s: string)
    requires Trimmed(s)
    ensures Strip(s) == s
  {
  }

  lemma {:induction false} LstripStarts(s: string)
    ensures |Lstrip(s)| > 0 ==> !IsSpace(Lstrip(s)[0])
    decreases |s|
  {
    if |s| > 0 && IsSpace(s[0]) {
      LstripStarts(s[1..]);
    }
  }

  lemma {:induction false} RstripEnds(s: string)
    ensures |Rstrip(s)| <= |s| && Rstrip(s) == s[..|Rstrip(s)|]
    ensures |Rstrip(s)| > 0 ==> !IsSpace(Rstrip(s)[|Rstrip(s)| - 1])
    decreases |s|
  {
    if |s| > 0 && IsSpace(s[|s| - 1]) {
      RstripEnds(s[..|s| - 1]);
    }
  }

  lemma StripIsTrimmed(s: string)
    ensures Trimmed(Strip(s))
  {
    LstripStarts(s);
    RstripEnds(Lstrip(s));
  }

  lemma {:induction false} LstripSuffix(s: string)
    ensures |Lstrip(s)| <= |s| && Lstrip(s) == s[|s| - |Lstrip(s)|..]
    decreases |s|
  {
    if |s| > 0 && IsSpace(s[0]) {
      LstripSuffix(s[1..]);
    }
  }

  lemma StripIsPart(s: string)
    ensures |Strip(s)| <= |Lstrip(s)| <= |s|
    ensures Strip(s) == Lstrip(s)[..|Strip(s)|]
    ensures Lstrip(s) == s[|s| - |Lstrip(s)|..]
  {
    LstripSuffix(s);
    RstripEnds(Lstrip(s));
  }

  /** The text begins with the word. */
  ghost predicate Begins(s: string, p: string) {
    |p| <= |s| && forall i :: 0 <= i < |p| ==> s[i] == p[i]
  }

  lemma BeginsIs(s: string, p: string)
    ensures StartsWith(s, p) <==> Begins(s, p)
  {
    if Begins(s, p) {
      assert s[..|p|] == p;
    }
    if StartsWith(s, p) {
      assert forall i :: 0 <= i < |p| ==> s[..|p|][i] == s[i];
    }
  }

  /** `inner` is `outer` without the white space at its ends. */
  ghost predicate Stripped(outer: string, inner: string) {
    exists a, c :: Padded(outer, a, inner, c)
  }

  ghost predicate Padded(outer: string, a: string, inner: string, c: string) {
    outer == a + inner + c && Blank(a) && Blank(c) && Trimmed(inner)
  }

  lemma {:induction false} LstripRemoves(s: string)
    ensures |Lstrip(s)| <= |s| && Blank(s[..|s| - |Lstrip(s)|])
    decreases |s|
  {
    if |s| > 0 && IsSpace(s[0]) {
      LstripRemoves(s[1..]);
      assert s[..|s| - |Lstrip(s)|] == [s[0]] + s[1..][..|s[1..]| - |Lstrip(s)|];
    }
  }

  lemma {:induction false} RstripRemoves(s: string)
    ensures |Rstrip(s)| <= |s| && Blank(s[|Rstrip(s)|..])
    decreases |s|
  {
    if |s| > 0 && IsSpace(s[|s| - 1]) {
      RstripRemoves(s[..|s| - 1]);
      assert s[|Rstrip(s)|..] == s[..|s| - 1][|Rstrip(s)|..] + [s[|s| - 1]];
    }
  }

  lemma PartsArePadded(s: string, i: nat, rest: string, j: nat)
    requires i <= |s| && rest == s[i..] && j <= |rest|
    requires Blank(s[..i]) && Blank(rest[j..]) && Trimmed(rest[..j])
    ensures Stripped(s, rest[..j])
  {
    assert s == s[..i] + rest;
    assert rest == rest[..j] + rest[j..];
    assert s[..i] + rest[..j] + rest[j..] == s[..i] + (rest[..j] + rest[j..]);
    assert Padded(s, s[..i], rest[..j], rest[j..]);
  }

  /** Nothing but white space is removed, and all of it at the ends. */
  lemma StripMeans(s: string)
    ensures Stripped(s, Strip(s))
  {
    LstripRemoves(s);
    RstripRemoves(Lstrip(s));
    StripIsPart(s);
    StripIsTrimmed(s);
    PartsArePadded(s, |s| - |Lstrip(s)|, Lstrip(s), |Strip(s)|);
  }

  /** There is only one such text. */
  lemma StripUnique(text: string, a: string)
    requires Stripped(text, a)
    ensures a == Strip(text)
  {
    var left, right :| Padded(text, left, a, right);
    StripLeft(left, a + right);
    assert text == left + (a + right);
    if |a| > 0 {
      LstripKeeps(a + right);
      assert Lstrip(text) == a + right;
      StripRight(a, right);
      RstripKeeps(a);
    } else {
      assert a + right == right;
      BlankGone(right);
      assert Lstrip(text) == [];
    }
  }

  lemma {:induction false} StripLeft(left: string, rest: string)
    requires Blank(left)
    ensures Lstrip(left + rest) == Lstrip(rest)
    decreases |left|
  {
    if |left| == 0 {
      assert left + rest == rest;
    } else {
      assert left[0] in left && (left + rest)[1..] == left[1..] + rest;
      assert forall c :: c in left[1..] ==> c in left;
      StripLeft(left[1..], rest);
    }
  }

  lemma {:induction false} StripRight(front: string, right: string)
    requires Blank(right)
    ensures Rstrip(front + right) == Rstrip(front)
    decreases |right|
  {
    if |right| == 0 {
      assert front + right == front;
    } else {
      var n := |right| - 1;
      assert right[n] in right && (front + right)[..|front + right| - 1] == front + right[..n];
      assert forall c :: c in right[..n] ==> c in right;
      StripRight(front, right[..n]);
    }
  }

  lemma LstripKeeps(s: string)
    requires |s| > 0 && !IsSpace(s[0])
    ensures Lstrip(s) == s
  {
  }

  lemma RstripKeeps(s: string)
    requires |s| > 0 && !IsSpace(s[|s| - 1])
    ensures Rstrip(s) == s
  {
  }

  lemma {:induction false} BlankGone(s: string)
    requires Blank(s)
    ensures Lstrip(s) == []
    decreases |s|
  {
    if |s| > 0 {
      assert s[0] in s;
      assert forall c :: c in s[1..] ==> c in s;
      BlankGone(s[1..]);
    }
  }
}

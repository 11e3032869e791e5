/** Which entries name a broker target, and which one, without parsing. */
module HostMeaning {
  import opened HostPort
  import opened Text
  import opened Wrappers

  // ---------------------------------------------------------------- numerals

  ghost predicate Digit(c: char) {
    '0' <= c <= '9'
  }

  ghost predicate InPlace(s: string, i: nat)
    requires i < |s|
  {
    Digit(s[i]) || (s[i] == '_' && 0 < i < |s| - 1 && Digit(s[i - 1]) && Digit(s[i + 1]))
  }

  /** Digits, with an underscore only between two of them. */
  ghost predicate Numeral(s: string) {
    |s| > 0 && forall i :: 0 <= i < |s| ==> InPlace(s, i)
  }

  /** Its value, read from the left. */
  ghost function ReadOn(s: string, before: nat): nat
    decreases |s|
  {
    if |s| == 0 then before
    else ReadOn(s[1..], if Digit(s[0]) then before * 10 + (s[0] - '0') as nat else before)
  }

  lemma NumeralAt(s: string, i: nat)
    requires IsNumeral(s) && i < |s|
    ensures Digit(s[i]) || (s[i] == '_' && 0 < i && s[i - 1] != '_')
  {
    assert IsDigit(s[i]) <==> Digit(s[i]);
  }

  lemma NumeralIs(s: string)
    ensures IsNumeral(s) <==> Numeral(s)
  {
    if IsNumeral(s) {
      forall i | 0 <= i < |s| ensures InPlace(s, i) {
        NumeralAt(s, i);
        if s[i] == '_' {
          assert i < |s| - 1;
          NumeralAt(s, i - 1);
          NumeralAt(s, i + 1);
        }
      }
    }
    if Numeral(s) {
      assert InPlace(s, 0) && InPlace(s, |s| - 1);
      forall i | 0 <= i < |s| ensures IsDigit(s[i]) || (s[i] == '_' && 0 < i && s[i - 1] != '_') {
        assert InPlace(s, i);
      }
    }
  }

  lemma {:induction false} ReadOnSnoc(s: string, c: char, before: nat)
    ensures ReadOn(s + [c], before) ==
            if Digit(c) then ReadOn(s, before) * 10 + (c - '0') as nat else ReadOn(s, before)
    decreases |s|
  {
    if |s| == 0 {
      assert s + [c] == [c] && [c][1..] == [];
    } else {
      assert (s + [c])[1..] == s[1..] + [c];
      ReadOnSnoc(s[1..], c, if Digit(s[0]) then before * 10 + (s[0] - '0') as nat else before);
    }
  }

  lemma {:induction false} ValueIs(s: string)
    ensures NumeralValue(s) == ReadOn(s, 0)
    decreases |s|
  {
    if |s| > 0 {
      ValueIs(s[..|s| - 1]);
      ReadOnSnoc(s[..|s| - 1], s[|s| - 1], 0);
      assert s == s[..|s| - 1] + [s[|s| - 1]];
    }
  }

  /** The text gives the port: a numeral, perhaps after a plus sign, with white space around it. */
  ghost predicate GivesPort(text: string, port: int) {
    1 <= port <= 65535
    && exists inner, num ::
         Stripped(text, inner) && (inner == num || inner == "+" + num) && Numeral(num) && ReadOn(num, 0) == port
  }

  /** A text that is read as a port gives it. */
  lemma PortIsGiven(text: string, entry: string, port: int)
    requires ParsePortValue(text, entry) == Success(port)
    ensures GivesPort(text, port)
  {
    var t := Strip(text);
    StripMeans(text);
    var num := if |t| > 0 && (t[0] == '+' || t[0] == '-') then t[1..] else t;
    NumeralIs(num);
    ValueIs(num);
    assert t == num || t == "+" + num;
  }

  lemma PortIs(text: string, entry: string, port: int)
    ensures ParsePortValue(text, entry) == Success(port) <==> GivesPort(text, port)
  {
    if ParsePortValue(text, entry) == Success(port) {
      PortIsGiven(text, entry, port);
    }
    if GivesPort(text, port) {
      var inner, num :|
        Stripped(text, inner) && (inner == num || inner == "+" + num) && Numeral(num) && ReadOn(num, 0) == port;
      StripUnique(text, inner);
      NumeralIs(num);
      ValueIs(num);
      assert Digit(num[0]) && !Digit('+') && !Digit('-');
      assert inner == "+" + num ==> inner[1..] == num;
    }
  }

  // ---------------------------------------------------------------- entries

  ghost predicate NamesPort(rest: string, port: Option<int>) {
    if port.None? then rest == "" else exists text :: rest == ":" + text && GivesPort(text, port.value)
  }

  /** A host in brackets, which end at the first closing one, and perhaps a port behind them. */
  ghost predicate InBrackets(raw: string, e: Endpoint) {
    exists inner, rest :: Bracketed(raw, inner, rest, e)
  }

  ghost predicate Bracketed(raw: string, inner: string, rest: string, e: Endpoint) {
    && raw == "[" + inner + "]" + rest && ']' !in inner
    && Stripped(inner, e.host) && |e.host| > 0
    && NamesPort(rest, e.port)
  }

  /** A text without a colon, or a host and a port with the one colon between them. */
  ghost predicate Plainly(raw: string, e: Endpoint) {
    || (':' !in raw && e == Endpoint(raw, None))
    || (exists before, text ::
          && raw == before + ":" + text && ':' !in before && ':' !in text
          && Stripped(before, e.host) && |e.host| > 0
          && e.port.Some? && GivesPort(text, e.port.value))
  }

  ghost predicate ManyColons(raw: string) {
    exists i, j :: 0 <= i < j < |raw| && raw[i] == ':' && raw[j] == ':'
  }

  /** What the entry names. */
  ghost predicate Denotes(entry: string, isAddress: string -> bool, e: Endpoint) {
    exists raw ::
      && Stripped(entry, raw) && |raw| > 0
      && if raw[0] == '[' then InBrackets(raw, e)
         else Plainly(raw, e) || (ManyColons(raw) && isAddress(raw) && e == Endpoint(raw, None))
  }

  lemma FindIsFirst(s: string, a: string, c: char, b: string)
    requires s == a + [c] + b && c !in a
    ensures Find(s, c) == Some(|a|) && s[..|a|] == a && s[|a| + 1..] == b
  {
    FindAfter(a, c, b);
  }

  lemma FindSplits(s: string, c: char)
    requires Find(s, c).Some?
    ensures var at := Find(s, c).value; s == s[..at] + [c] + s[at + 1..] && c !in s[..at]
  {
  }

  lemma BracketsMean(raw: string, entry: string, e: Endpoint)
    requires |raw| > 0 && raw[0] == '['
    ensures ParseBracketed(raw, entry) == Success(e) <==> InBrackets(raw, e)
  {
    if ParseBracketed(raw, entry) == Success(e) {
      BracketedIs(raw, entry, e);
    }
    if InBrackets(raw, e) {
      IsBracketed(raw, entry, e);
    }
  }

  lemma BracketSplit(raw: string, at: nat)
    requires 0 < at < |raw| && raw[0] == '[' && raw[at] == ']'
    ensures raw == "[" + raw[1..at] + "]" + raw[at + 1..]
  {
    assert raw[..at] == "[" + raw[1..at];
    assert raw == raw[..at] + "]" + raw[at + 1..];
  }

  /** What follows the bracket is nothing or a port. */
  lemma RestNames(raw: string, at: nat, entry: string, e: Endpoint)
    requires |raw| > 0 && raw[0] == '[' && Find(raw, ']') == Some(at) && ParseBracketed(raw, entry) == Success(e)
    ensures NamesPort(raw[at + 1..], e.port)
  {
    var rest := raw[at + 1..];
    if |rest| > 0 {
      PortIs(rest[1..], entry, e.port.value);
      assert rest == ":" + rest[1..];
    }
  }

  lemma NoneInside(s: string, at: nat, c: char)
    requires 0 < at <= |s| && c !in s[..at]
    ensures c !in s[1..at]
  {
    assert s[..at] == [s[0]] + s[1..at];
  }

  lemma HostInside(raw: string, at: nat, entry: string, e: Endpoint)
    requires |raw| > 0 && raw[0] == '[' && Find(raw, ']') == Some(at) && ParseBracketed(raw, entry) == Success(e)
    ensures 0 < at && e.host == Strip(raw[1..at]) && |e.host| > 0
  {
  }

  lemma PartsAre(raw: string, at: nat)
    requires |raw| > 0 && raw[0] == '[' && Find(raw, ']') == Some(at)
    ensures 0 < at && raw == "[" + raw[1..at] + "]" + raw[at + 1..] && ']' !in raw[1..at]
  {
    FindSplits(raw, ']');
    BracketSplit(raw, at);
    NoneInside(raw, at, ']');
  }

  lemma BracketedIs(raw: string, entry: string, e: Endpoint)
    requires |raw| > 0 && raw[0] == '[' && ParseBracketed(raw, entry) == Success(e)
    ensures InBrackets(raw, e)
  {
    var at := Find(raw, ']').value;
    PartsAre(raw, at);
    HostInside(raw, at, entry, e);
    StripMeans(raw[1..at]);
    RestNames(raw, at, entry, e);
    BracketedSo(raw, raw[1..at], raw[at + 1..], e);
  }

  lemma BracketedSo(raw: string, inner: string, rest: string, e: Endpoint)
    requires Bracketed(raw, inner, rest, e)
    ensures InBrackets(raw, e)
  {
  }

  lemma IsBracketed(raw: string, entry: string, e: Endpoint)
    requires |raw| > 0 && raw[0] == '[' && InBrackets(raw, e)
    ensures ParseBracketed(raw, entry) == Success(e)
  {
    var inner, rest :| Bracketed(raw, inner, rest, e);
    FindIsFirst(raw, "[" + inner, ']', rest);
    assert raw[1..|inner| + 1] == inner;
    StripUnique(inner, e.host);
    if e.port.Some? {
      var text :| rest == ":" + text && GivesPort(text, e.port.value);
      assert rest[1..] == text;
      PortIs(text, entry, e.port.value);
    }
  }

  lemma FirstColon(raw: string, before: string, text: string)
    requires raw == before + ":" + text && ':' !in before
    ensures Find(raw, ':') == Some(|before|) && raw[..|before|] == before && raw[|before| + 1..] == text
    ensures Count(raw, ':') == 1 + Count(text, ':')
  {
    FindIsFirst(raw, before, ':', text);
    assert raw == before + (":" + text) && (":" + text)[1..] == text;
    CountAppend(before, ":" + text, ':');
    CountNone(before, ':');
  }

  lemma ColonSplit(raw: string)
    requires ':' in raw
    ensures var at := Find(raw, ':').value;
            raw == raw[..at] + ":" + raw[at + 1..] && ':' !in raw[..at] && Count(raw, ':') == 1 + Count(raw[at + 1..], ':')
  {
    FindSplits(raw, ':');
    var at := Find(raw, ':').value;
    FirstColon(raw, raw[..at], raw[at + 1..]);
  }

  lemma ManyIs(raw: string)
    ensures ManyColons(raw) <==> Count(raw, ':') > 1
  {
    CountNone(raw, ':');
    assert ManyColons(raw) ==> ':' in raw;
    if ':' in raw {
      var at := Find(raw, ':').value;
      var rest := raw[at + 1..];
      ColonSplit(raw);
      CountNone(rest, ':');
      if ':' in rest {
        var k :| 0 <= k < |rest| && rest[k] == ':';
        assert raw[at] == ':' && raw[at + 1 + k] == ':';
      }
      if i, j :| 0 <= i < j < |raw| && raw[i] == ':' && raw[j] == ':' {
        assert j > at;
        assert rest[j - at - 1] == ':';
      }
    }
  }

  /** A host and a port around the only colon. */
  ghost predicate Pairs(before: string, text: string, e: Endpoint) {
    Stripped(before, e.host) && |e.host| > 0 && e.port.Some? && GivesPort(text, e.port.value)
  }

  lemma PairIs(entry: string, before: string, text: string, isAddress: string -> bool, e: Endpoint)
    requires Strip(entry) == before + ":" + text && ':' !in before && ':' !in text
    requires |before| > 0 ==> before[0] != '['
    ensures ParseHostPort(entry, isAddress) == Success(e) <==> Pairs(before, text, e)
  {
    var raw := Strip(entry);
    FirstColon(raw, before, text);
    CountNone(text, ':');
    assert raw[0] != '[';
    StripMeans(before);
    if e.port.Some? {
      PortIs(text, entry, e.port.value);
    }
    if Pairs(before, text, e) {
      StripUnique(before, e.host);
    }
  }

  lemma PlainlyIs(entry: string, raw: string, isAddress: string -> bool, e: Endpoint)
    requires |raw| > 0 && raw[0] != '[' && raw == Strip(entry) && Count(raw, ':') <= 1
    ensures ParseHostPort(entry, isAddress) == Success(e) <==> Plainly(raw, e)
  {
    CountNone(raw, ':');
    if ':' in raw {
      var at := Find(raw, ':').value;
      var before, text := raw[..at], raw[at + 1..];
      ColonSplit(raw);
      CountNone(text, ':');
      PairIs(entry, before, text, isAddress, e);
      OnlyPair(raw, before, text, e);
    }
  }

  lemma OnlyPair(raw: string, before: string, text: string, e: Endpoint)
    requires raw == before + ":" + text && ':' !in before && ':' !in text
    ensures Plainly(raw, e) <==> Pairs(before, text, e)
  {
    assert raw[|before|] == ':';
    if Plainly(raw, e) {
      var before', text' :|
        && raw == before' + ":" + text' && ':' !in before' && ':' !in text'
        && Stripped(before', e.host) && |e.host| > 0 && e.port.Some? && GivesPort(text', e.port.value);
      FirstColon(raw, before, text);
      FirstColon(raw, before', text');
    }
  }

  lemma PlainlyIsFew(raw: string, e: Endpoint)
    requires Plainly(raw, e)
    ensures Count(raw, ':') <= 1
  {
    CountNone(raw, ':');
    if ':' in raw {
      var before, text :| raw == before + ":" + text && ':' !in before && ':' !in text;
      FirstColon(raw, before, text);
      CountNone(text, ':');
    }
  }

  /** An entry is accepted as a host and a port exactly when it denotes them; any other is refused by name. */
  lemma ParsesExactlyWhen(entry: string, isAddress: string -> bool, e: Endpoint)
    ensures ParseHostPort(entry, isAddress) == Success(e) <==> Denotes(entry, isAddress, e)
  {
    var raw := Strip(entry);
    StripMeans(entry);
    assert forall r :: Stripped(entry, r) ==> r == raw by {
      forall r | Stripped(entry, r) ensures r == raw {
        StripUnique(entry, r);
      }
    }
    if |raw| > 0 {
      if raw[0] == '[' {
        BracketsMean(raw, entry, e);
      } else {
        ManyIs(raw);
        if Plainly(raw, e) {
          PlainlyIsFew(raw, e);
        }
        if Count(raw, ':') <= 1 {
          PlainlyIs(entry, raw, isAddress, e);
        }
      }
    }
  }

  lemma RefusedByName(entry: string, isAddress: string -> bool)
    requires ParseHostPort(entry, isAddress).Failure?
    ensures ParseHostPort(entry, isAddress) == Failure(BadEntry(entry))
  {
  }
}

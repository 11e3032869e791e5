/** Broker targets written as host, host:port or [host]:port, and the probe inputs built from them. */
module HostPort {
  import opened Text
  import opened Wrappers

  datatype Error = BadEntry(entry: string)

  datatype Endpoint = Endpoint(host: string, port: Option<int>)

  // ---------------------------------------------------------------- whole numbers

  predicate IsDigit(c: char) {
    '0' <= c <= '9'
  }

  function DigitOf(c: char): nat
    requires IsDigit(c)
  {
    (c - '0') as nat
  }

  /** Digits, with single underscores allowed between two of them. */
  predicate IsNumeral(s: string) {
    && |s| > 0 && IsDigit(s[0]) && IsDigit(s[|s| - 1])
    && forall i :: 0 <= i < |s| ==> IsDigit(s[i]) || (s[i] == '_' && 0 < i && s[i - 1] != '_')
  }

  function NumeralValue(s: string): nat
    decreases |s|
  {
    if |s| == 0 then 0
    else if !IsDigit(s[|s| - 1]) then NumeralValue(s[..|s| - 1])
    else NumeralValue(s[..|s| - 1]) * 10 + DigitOf(s[|s| - 1])
  }

  function Signed(sign: char, n: nat): int {
    if sign == '-' then 0 - n else n
  }

  /** `int` applied to a text: surrounding white space, one sign, a numeral. */
  function IntOf(s: string): Option<int> {
    var t := Strip(s);
    if |t| > 0 && (t[0] == '+' || t[0] == '-') then
      if IsNumeral(t[1..]) then Some(Signed(t[0], NumeralValue(t[1..]))) else None
    else if IsNumeral(t) then Some(NumeralValue(t))
    else None
  }

  function Decimal(n: nat): string
    decreases n
  {
    if n < 10 then ['0' + n as char] else Decimal(n / 10) + ['0' + (n % 10) as char]
  }

  // ---------------------------------------------------------------- parsing

  function ParsePortValue(item: string, entry: string): Result<int, Error> {
    match IntOf(item)
    case None => Failure(BadEntry(entry))
    case Some(port) => if 1 <= port <= 65535 then Success(port) else Failure(BadEntry(entry))
  }

  function Find(s: string, c: char): (r: Option<nat>)
    ensures r.Some? ==> r.value < |s| && s[r.value] == c && forall i :: 0 <= i < r.value ==> s[i] != c
    ensures r.None? <==> c !in s
    decreases |s|
  {
    if |s| == 0 then None
    else if s[0] == c then Some(0)
    else match Find(s[1..], c)
      case None => None
      case Some(i) => Some(i + 1)
  }

  function Count(s: string, c: char): nat
    decreases |s|
  {
    if |s| == 0 then 0 else (if s[0] == c then 1 else 0) + Count(s[1..], c)
  }

  /** A text that starts with a bracket: the host ends at the first closing one. */
  function ParseBracketed(raw: string, entry: string): Result<Endpoint, Error>
    requires |raw| > 0 && raw[0] == '['
  {
    match Find(raw, ']')
    case None => Failure(BadEntry(entry))
    case Some(at) =>
      var host, remainder := Strip(raw[1..at]), raw[at + 1..];
      if |host| == 0 then Failure(BadEntry(entry))
      else if |remainder| == 0 then Success(Endpoint(host, None))
      else if remainder[0] != ':' then Failure(BadEntry(entry))
      else
        var port :- ParsePortValue(remainder[1..], entry);
        Success(Endpoint(host, Some(port)))
  }

  /** `isAddress` is the address library's verdict on an unbracketed text with several colons. */
  function ParseHostPort(entry: string, isAddress: string -> bool): Result<Endpoint, Error> {
    var raw := Strip(entry);
    if |raw| == 0 then Failure(BadEntry(entry))
    else if raw[0] == '[' then ParseBracketed(raw, entry)
    else if Count(raw, ':') == 0 then Success(Endpoint(raw, None))
    else if Count(raw, ':') == 1 then
      match Find(raw, ':')
      case None => Failure(BadEntry(entry))
      case Some(at) =>
        var host := Strip(raw[..at]);
        if |host| == 0 then Failure(BadEntry(entry))
        else
          var port :- ParsePortValue(raw[at + 1..], entry);
          Success(Endpoint(host, Some(port)))
    else if isAddress(raw) then Success(Endpoint(raw, None))
    else Failure(BadEntry(entry))
  }

  /** The written form: brackets for a host that needs them (section 6 of RFC 5952). */
  predicate NeedsBrackets(host: string) {
    ':' in host || (|host| > 0 && host[0] == '[')
  }

  function Written(e: Endpoint): string {
    (if NeedsBrackets(e.host) then "[" + e.host + "]" else e.host)
    + (if e.port.None? then "" else if e.port.value >= 0 then ":" + Decimal(e.port.value) else "")
  }

  // ---------------------------------------------------------------- the round trip

  lemma {:induction false} DecimalIsNumeral(n: nat)
    ensures |Decimal(n)| > 0 && forall i :: 0 <= i < |Decimal(n)| ==> IsDigit(Decimal(n)[i])
    ensures NumeralValue(Decimal(n)) == n
    decreases n
  {
    if n >= 10 {
      DecimalIsNumeral(n / 10);
      assert Decimal(n)[..|Decimal(n)| - 1] == Decimal(n / 10);
    }
  }

  lemma IntOfDecimal(n: nat)
    ensures IntOf(Decimal(n)) == Some(n)
  {
    DecimalIsNumeral(n);
    StripTrimmed(Decimal(n));
  }

  lemma {:induction false} CountAppend(a: string, b: string, c: char)
    ensures Count(a + b, c) == Count(a, c) + Count(b, c)
    decreases |a|
  {
    if |a| == 0 {
      assert a + b == b;
    } else {
      assert (a + b)[1..] == a[1..] + b;
      CountAppend(a[1..], b, c);
    }
  }

  lemma {:induction false} CountNone(s: string, c: char)
    ensures Count(s, c) == 0 <==> c !in s
    decreases |s|
  {
    if |s| > 0 {
      CountNone(s[1..], c);
    }
  }

  lemma FindAfter(a: string, c: char, rest: string)
    requires c !in a
    ensures Find(a + [c] + rest, c) == Some(|a|)
  {
    var s := a + [c] + rest;
    assert s[|a|] == c;
    forall i | 0 <= i < |a| ensures s[i] != c {
      assert s[i] == a[i];
    }
  }

  /** What follows the host in the printed form reads back as the port. */
  lemma PortReadsBack(port: int, entry: string)
    requires 1 <= port <= 65535
    ensures ParsePortValue(Decimal(port), entry) == Success(port)
  {
    IntOfDecimal(port);
  }

  ghost predicate Valid(e: Endpoint) {
    e.port.Some? ==> 1 <= e.port.value <= 65535
  }

  lemma PrintedIsTrimmed(e: Endpoint)
    requires Valid(e) && |e.host| > 0 && Trimmed(e.host)
    ensures Trimmed(Written(e)) && |Written(e)| > 0
  {
    if e.port.Some? {
      DecimalIsNumeral(e.port.value);
      var digits := Decimal(e.port.value);
      assert Written(e)[|Written(e)| - 1] == digits[|digits| - 1];
    }
  }

  lemma BracketedReadsBack(e: Endpoint, isAddress: string -> bool)
    requires Valid(e) && |e.host| > 0 && Trimmed(e.host) && NeedsBrackets(e.host) && ']' !in e.host
    ensures ParseHostPort(Written(e), isAddress) == Success(e)
  {
    var tail := if e.port.None? then "" else ":" + Decimal(e.port.value);
    var raw := Written(e);
    PrintedIsTrimmed(e);
    StripTrimmed(raw);
    assert raw == ("[" + e.host) + [']'] + tail;
    FindAfter("[" + e.host, ']', tail);
    assert raw[1..|e.host| + 1] == e.host;
    StripTrimmed(e.host);
    assert raw[|e.host| + 2..] == tail;
    if e.port.Some? {
      PortReadsBack(e.port.value, raw);
      assert tail[1..] == Decimal(e.port.value);
    }
  }

  lemma PlainReadsBack(e: Endpoint, isAddress: string -> bool)
    requires Valid(e) && |e.host| > 0 && Trimmed(e.host) && !NeedsBrackets(e.host)
    ensures ParseHostPort(Written(e), isAddress) == Success(e)
  {
    var raw := Written(e);
    PrintedIsTrimmed(e);
    StripTrimmed(raw);
    StripTrimmed(e.host);
    CountNone(e.host, ':');
    if e.port.None? {
      assert raw == e.host;
    } else {
      var digits := Decimal(e.port.value);
      DecimalIsNumeral(e.port.value);
      CountNone(digits, ':');
      assert raw == e.host + (":" + digits);
      CountAppend(e.host, ":" + digits, ':');
      assert (":" + digits)[1..] == digits;
      assert raw == e.host + [':'] + digits;
      FindAfter(e.host, ':', digits);
      assert raw[..|e.host|] == e.host && raw[|e.host| + 1..] == digits;
      PortReadsBack(e.port.value, raw);
    }
  }

  /** Whatever is accepted has a host without white space at its ends, and a port in range. */
  lemma AcceptedIsSound(entry: string, isAddress: string -> bool)
    requires ParseHostPort(entry, isAddress).Success?
    ensures var e := ParseHostPort(entry, isAddress).value; |e.host| > 0 && Trimmed(e.host) && Valid(e)
  {
    var raw := Strip(entry);
    StripIsTrimmed(entry);
    if raw[0] == '[' {
      StripIsTrimmed(raw[1..Find(raw, ']').value]);
    } else if Count(raw, ':') == 1 {
      StripIsTrimmed(raw[..Find(raw, ':').value]);
    }
  }

  lemma BracketEndsHost(raw: string, entry: string, k: nat)
    requires 0 < k < |raw| && raw[0] == '[' && raw[k] == ']' && ParseBracketed(raw, entry).Success?
    ensures |ParseBracketed(raw, entry).value.host| < k
  {
    var at := Find(raw, ']').value;
    StripIsPart(raw[1..at]);
  }

  lemma PrintedInBrackets(e: Endpoint, k: nat)
    requires NeedsBrackets(e.host) && k < |e.host|
    ensures k + 1 < |Written(e)| && Written(e)[0] == '[' && Written(e)[k + 1] == e.host[k]
  {
  }

  lemma BracketCutsShort(e: Endpoint, isAddress: string -> bool)
    requires Valid(e) && |e.host| > 0 && Trimmed(e.host) && NeedsBrackets(e.host) && ']' in e.host
    ensures ParseHostPort(Written(e), isAddress) != Success(e)
  {
    var raw := Written(e);
    PrintedIsTrimmed(e);
    StripTrimmed(raw);
    var k := Find(e.host, ']').value;
    PrintedInBrackets(e, k);
    assert ParseHostPort(raw, isAddress) == ParseBracketed(raw, raw);
    if ParseBracketed(raw, raw).Success? {
      BracketEndsHost(raw, raw, k + 1);
    }
  }

  /** The round trip: what is printed for a host and a valid port, or none, is parsed back to the
      same pair if and only if the host is not empty, has no white space at its ends, and holds no
      closing bracket where brackets are written. */
  lemma RoundTrip(e: Endpoint, isAddress: string -> bool)
    requires Valid(e)
    ensures ParseHostPort(Written(e), isAddress) == Success(e) <==>
              |e.host| > 0 && Trimmed(e.host) && (NeedsBrackets(e.host) ==> ']' !in e.host)
  {
    if ParseHostPort(Written(e), isAddress) == Success(e) {
      AcceptedIsSound(Written(e), isAddress);
      if NeedsBrackets(e.host) && ']' in e.host {
        BracketCutsShort(e, isAddress);
      }
    }
    if |e.host| > 0 && Trimmed(e.host) && (NeedsBrackets(e.host) ==> ']' !in e.host) {
      if NeedsBrackets(e.host) {
        BracketedReadsBack(e, isAddress);
      } else {
        PlainReadsBack(e, isAddress);
      }
    }
  }

  // ---------------------------------------------------------------- broker inputs

  /** `dict.fromkeys`: first occurrences, in order. */
  function Deduped<T(==)>(s: seq<T>): seq<T>
    decreases |s|
  {
    if |s| == 0 then []
    else if s[|s| - 1] in s[..|s| - 1] then Deduped(s[..|s| - 1])
    else Deduped(s[..|s| - 1]) + [s[|s| - 1]]
  }

  function ParseAll(entries: seq<string>, isAddress: string -> bool): Result<seq<Endpoint>, Error>
    decreases |entries|
  {
    if |entries| == 0 then Success([])
    else
      var before :- ParseAll(entries[..|entries| - 1], isAddress);
      var e :- ParseHostPort(entries[|entries| - 1], isAddress);
      Success(before + [e])
  }

  function Hosts(pairs: seq<Endpoint>): seq<string> {
    seq(|pairs|, i requires 0 <= i < |pairs| => pairs[i].host)
  }

  /** The explicit ports of one host, in order. */
  function PortsOf(pairs: seq<Endpoint>, host: string): seq<int>
    decreases |pairs|
  {
    if |pairs| == 0 then []
    else
      var e := pairs[|pairs| - 1];
      PortsOf(pairs[..|pairs| - 1], host) + if e.host == host && e.port.Some? then [e.port.value] else []
  }

  function Explicit(pairs: seq<Endpoint>): seq<Endpoint>
    decreases |pairs|
  {
    if |pairs| == 0 then []
    else Explicit(pairs[..|pairs| - 1]) + if pairs[|pairs| - 1].port.Some? then [pairs[|pairs| - 1]] else []
  }

  datatype Inputs = Inputs(hosts: seq<string>, overrides: map<string, seq<int>>, reachable: seq<Endpoint>)

  ghost predicate Overrides(m: map<string, seq<int>>, pairs: seq<Endpoint>) {
    forall h: string :: if h in m then m[h] == PortsOf(pairs, h) && |m[h]| > 0 else PortsOf(pairs, h) == []
  }

  function WithPort(m: map<string, seq<int>>, e: Endpoint): map<string, seq<int>> {
    if e.port.None? then m else m[e.host := (if e.host in m then m[e.host] else []) + [e.port.value]]
  }

  lemma OverridesNext(m: map<string, seq<int>>, pairs: seq<Endpoint>, i: nat)
    requires i < |pairs| && Overrides(m, pairs[..i])
    ensures Overrides(WithPort(m, pairs[i]), pairs[..i + 1])
  {
    assert pairs[..i + 1][..i] == pairs[..i];
    forall h: string
      ensures if h in WithPort(m, pairs[i])
              then WithPort(m, pairs[i])[h] == PortsOf(pairs[..i + 1], h) && |WithPort(m, pairs[i])[h]| > 0
              else PortsOf(pairs[..i + 1], h) == []
    {
      assert if h in m then m[h] == PortsOf(pairs[..i], h) && |m[h]| > 0 else PortsOf(pairs[..i], h) == [];
    }
  }

  method BuildBrokerScanInputs(tlsHosts: seq<string>, entries: seq<string>, isAddress: string -> bool)
    returns (r: Result<Inputs, Error>)
    ensures r.Failure? <==> ParseAll(entries, isAddress).Failure?
    ensures r.Failure? ==> r.error == ParseAll(entries, isAddress).error
    ensures r.Success? ==>
              var pairs := Deduped(ParseAll(entries, isAddress).value);
              && r.value.hosts == Deduped(tlsHosts + Hosts(pairs))
              && Overrides(r.value.overrides, pairs)
              && r.value.reachable == Explicit(pairs)
  {
    var parsed :- ParseAll(entries, isAddress);
    var pairs := Deduped(parsed);
    var overrides: map<string, seq<int>> := map[];
    for i := 0 to |pairs|
      invariant Overrides(overrides, pairs[..i])
    {
      var e := pairs[i];
      OverridesNext(overrides, pairs, i);
      if e.port.Some? {
        overrides := overrides[e.host := (if e.host in overrides then overrides[e.host] else []) + [e.port.value]];
      }
    }
    assert pairs[..|pairs|] == pairs;
    return Success(Inputs(Deduped(tlsHosts + Hosts(pairs)), overrides, Explicit(pairs)));
  }

  ghost predicate Distinct<T>(s: seq<T>) {
    forall i, j :: 0 <= i < j < |s| ==> s[i] != s[j]
  }

  /** `x` first occurs before `y` does. */
  ghost predicate FirstBefore<T>(s: seq<T>, x: T, y: T) {
    exists i :: 0 <= i < |s| && s[i] == x && y !in s[..i + 1]
  }

  lemma {:induction false} InDeduped<T>(s: seq<T>, x: T)
    ensures x in Deduped(s) <==> x in s
    decreases |s|
  {
    if |s| > 0 {
      InDeduped(s[..|s| - 1], x);
      assert s == s[..|s| - 1] + [s[|s| - 1]];
    }
  }

  /** Every element once, in the order of first occurrence. */
  lemma {:induction false} DedupedKeepsFirsts<T>(s: seq<T>)
    ensures forall x :: x in Deduped(s) <==> x in s
    ensures Distinct(Deduped(s))
    ensures forall i, j :: 0 <= i < j < |Deduped(s)| ==> FirstBefore(s, Deduped(s)[i], Deduped(s)[j])
    decreases |s|
  {
    if |s| > 0 {
      var init, last := s[..|s| - 1], s[|s| - 1];
      DedupedKeepsFirsts(init);
      assert s == init + [last];
      assert Deduped(s) == if last in init then Deduped(init) else Deduped(init) + [last];
      forall i, j | 0 <= i < j < |Deduped(s)| ensures FirstBefore(s, Deduped(s)[i], Deduped(s)[j]) {
        var x, y := Deduped(s)[i], Deduped(s)[j];
        if j < |Deduped(init)| {
          FirstBeforeGrows(init, last, x, y);
        } else {
          assert y == last && last !in init && x == Deduped(init)[i];
          InDeduped(init, x);
          FirstBeforeNew(init, last, x);
        }
      }
    }
  }

  lemma FirstBeforeGrows<T>(s: seq<T>, z: T, x: T, y: T)
    requires FirstBefore(s, x, y)
    ensures FirstBefore(s + [z], x, y)
  {
    var k :| 0 <= k < |s| && s[k] == x && y !in s[..k + 1];
    assert (s + [z])[..k + 1] == s[..k + 1];
    assert (s + [z])[k] == x;
  }

  lemma FirstBeforeNew<T>(s: seq<T>, z: T, x: T)
    requires x in s && z !in s
    ensures FirstBefore(s + [z], x, z)
  {
    var k :| 0 <= k < |s| && s[k] == x;
    var prefix := (s + [z])[..k + 1];
    assert prefix == s[..k + 1];
    forall l | 0 <= l < |prefix| ensures prefix[l] != z {
      assert prefix[l] == s[l];
    }
    assert (s + [z])[k] == x;
  }

  lemma {:induction false} InPortsOf(pairs: seq<Endpoint>, host: string, port: int)
    ensures port in PortsOf(pairs, host) <==> Endpoint(host, Some(port)) in pairs
    decreases |pairs|
  {
    if |pairs| > 0 {
      var init, last := pairs[..|pairs| - 1], pairs[|pairs| - 1];
      assert pairs == init + [last];
      InPortsOf(init, host, port);
    }
  }

  lemma {:induction false} PortsAreDistinct(pairs: seq<Endpoint>, host: string)
    requires Distinct(pairs)
    ensures Distinct(PortsOf(pairs, host))
    decreases |pairs|
  {
    if |pairs| > 0 {
      var init, last := pairs[..|pairs| - 1], pairs[|pairs| - 1];
      PortsAreDistinct(init, host);
      if last.host == host && last.port.Some? {
        InPortsOf(init, host, last.port.value);
        assert last == Endpoint(host, Some(last.port.value));
        assert last.port.value !in PortsOf(init, host);
      }
    }
  }

  lemma {:induction false} InExplicit(pairs: seq<Endpoint>, e: Endpoint)
    ensures e in Explicit(pairs) <==> e in pairs && e.port.Some?
    decreases |pairs|
  {
    if |pairs| > 0 {
      InExplicit(pairs[..|pairs| - 1], e);
      assert pairs == pairs[..|pairs| - 1] + [pairs[|pairs| - 1]];
    }
  }

  /** The scan inputs: every host of both sources once, in order of first appearance; and the
      flattened port map is exactly the list of explicit pairs, none of them twice. */
  lemma BrokerInputsAreComplete(tlsHosts: seq<string>, parsed: seq<Endpoint>, inputs: Inputs)
    requires var pairs := Deduped(parsed);
             && inputs.hosts == Deduped(tlsHosts + Hosts(pairs))
             && Overrides(inputs.overrides, pairs)
             && inputs.reachable == Explicit(pairs)
    ensures forall h: string :: h in inputs.hosts <==> h in tlsHosts || exists e: Endpoint :: e in parsed && e.host == h
    ensures Distinct(inputs.hosts)
    ensures forall i, j :: 0 <= i < j < |inputs.hosts| ==>
              FirstBefore(tlsHosts + Hosts(Deduped(parsed)), inputs.hosts[i], inputs.hosts[j])
    ensures forall h: string, p: int ::
              (h in inputs.overrides && p in inputs.overrides[h]) <==> Endpoint(h, Some(p)) in inputs.reachable
    ensures forall h: string :: h in inputs.overrides ==> Distinct(inputs.overrides[h])
    ensures forall e: Endpoint :: e in inputs.reachable <==> e in parsed && e.port.Some?
  {
    var pairs := Deduped(parsed);
    DedupedKeepsFirsts(parsed);
    DedupedKeepsFirsts(tlsHosts + Hosts(pairs));
    forall h: string ensures h in Hosts(pairs) <==> exists e: Endpoint :: e in parsed && e.host == h {
      InHosts(pairs, h);
    }
    forall e: Endpoint ensures e in inputs.reachable <==> e in parsed && e.port.Some? {
      InExplicit(pairs, e);
    }
    forall h: string, p: int
      ensures (h in inputs.overrides && p in inputs.overrides[h]) <==> Endpoint(h, Some(p)) in inputs.reachable
    {
      InPortsOf(pairs, h, p);
    }
    forall h: string | h in inputs.overrides ensures Distinct(inputs.overrides[h]) {
      PortsAreDistinct(pairs, h);
    }
  }

  lemma InHosts(pairs: seq<Endpoint>, h: string)
    ensures h in Hosts(pairs) <==> exists e: Endpoint :: e in pairs && e.host == h
  {
    if h in Hosts(pairs) {
      var i :| 0 <= i < |pairs| && Hosts(pairs)[i] == h;
      assert pairs[i] in pairs;
    }
    if e: Endpoint :| e in pairs && e.host == h {
      var i :| 0 <= i < |pairs| && pairs[i] == e;
      assert Hosts(pairs)[i] == h;
    }
  }
}

/** Redaction of a configuration tree: every credential position becomes one of two markers, and
    the result depends on a credential only through whether it is set. */
module Redaction {
  import opened Text
  import opened Wrappers

  /** A configuration value. `Other` is a number, a flag or the like, given by its text; a set is
      given in some order of iteration; a record is a dataclass instance. */
  datatype Value =
    | Null
    | Other(text: string)
    | Str(s: string)
    | List(items: seq<Value>)
    | Tuple(items: seq<Value>)
    | SetOf(items: seq<Value>)
    | Dict(entries: seq<(Key, Value)>)
    | Rec(fields: seq<(string, Value)>)

  datatype Key = Name(name: string) | NotText(text: string)

  /** A redacted value. A sorted list is given by what it holds. */
  datatype Out =
    | OutNull
    | OutOther(text: string)
    | OutStr(s: string)
    | OutList(items: seq<Out>)
    | OutSorted(held: multiset<Out>)
    | OutDict(entries: seq<(Key, Out)>)

  /** An entry of a credential map is not a dataclass instance. */
  datatype Error = NotARecord

  /** The environment, and the scrubbing of user information out of URLs. */
  datatype Setting = Setting(env: map<string, string>, scrub: string -> string)

  const REDACTED_SET: string := "\U{2022}\U{2022}\U{2022}\U{2022} (set)"
  const REDACTED_UNSET: string := "\U{2022}\U{2022}\U{2022}\U{2022} (not set)"

  // ---------------------------------------------------------------- which names are credentials

  const REGISTRY: map<(string, string), string> := map[
    ("connectors", "vault_token") := "VAULT_TOKEN",
    ("connectors", "adcs_password") := "QUIRK_ADCS_PASSWORD",
    ("connectors", "pg_scanner_password") := "QUIRK_PG_SCANNER_PASSWORD",
    ("connectors", "mysql_scanner_password") := "QUIRK_MYSQL_SCANNER_PASSWORD",
    ("connectors", "snmp_community") := "QUIRK_SNMP_COMMUNITY",
    ("security", "api_token") := "QUIRK_API_TOKEN"
  ]

  const WORDS: seq<string> := [
    "password", "passwd", "passphrase", "secret", "token", "credential", "community",
    "private_key", "api_key", "apikey", "access_key", "client_secret", "connection_string"
  ]

  const MAP_FIELDS: set<string> := {"broker_credentials", "snmp_v3_credentials"}

  const SAFE_FIELDS: set<string> := {
    "pass_env", "auth_key_env", "priv_key_env", "adcs_user", "pg_scanner_user", "mysql_scanner_user",
    "broker_credentials", "snmp_v3_credentials"
  }

  /** Letters match whatever their case, and so do the look-alikes that fold to i, k and s. */
  function Fold(c: char): char {
    if 'A' <= c <= 'Z' then 'a' + (c - 'A')
    else if c == '\U{17F}' then 's'
    else if c == '\U{212A}' then 'k'
    else if c == '\U{130}' || c == '\U{131}' then 'i'
    else c
  }

  predicate MatchesAt(s: string, at: nat, word: string) {
    at + |word| <= |s| && forall i :: 0 <= i < |word| ==> Fold(s[at + i]) == word[i]
  }

  predicate Contains(s: string, word: string) {
    exists at :: 0 <= at <= |s| && MatchesAt(s, at, word)
  }

  predicate IsCredentialField(section: string, name: string) {
    name !in SAFE_FIELDS
    && ((section, name) in REGISTRY || exists i :: 0 <= i < |WORDS| && Contains(name, WORDS[i]))
  }

  /** Some text other than white space. Containers always print something. */
  predicate Present(value: Value) {
    match value
    case Null => false
    case Str(s) => !Blank(s)
    case Other(text) => !Blank(text)
    case _ => true
  }

  predicate CredentialIsSet(c: Setting, section: string, name: string, value: Value) {
    || Present(value)
    || ((section, name) in REGISTRY && REGISTRY[(section, name)] in c.env && !Blank(c.env[REGISTRY[(section, name)]]))
  }

  function Marker(c: Setting, section: string, name: string, value: Value): Out {
    OutStr(if CredentialIsSet(c, section, name, value) then REDACTED_SET else REDACTED_UNSET)
  }

  // ---------------------------------------------------------------- the redacted tree

  /** All values, or the first failure. */
  function Collect<T>(results: seq<Result<T, Error>>): Result<seq<T>, Error>
    decreases |results|
  {
    if |results| == 0 then Success([])
    else
      var last := |results| - 1;
      var before :- Collect(results[..last]);
      var value :- results[last];
      Success(before + [value])
  }

  function Joined<T>(lists: seq<seq<T>>): seq<T>
    decreases |lists|
  {
    if |lists| == 0 then [] else Joined(lists[..|lists| - 1]) + lists[|lists| - 1]
  }

  function Keyed(key: Key, r: Result<Out, Error>): Result<(Key, Out), Error> {
    var out :- r;
    Success((key, out))
  }

  function Alone(name: string, r: Result<Out, Error>): Result<seq<(Key, Out)>, Error> {
    var out :- r;
    Success([(Name(name), out)])
  }

  function AsList(r: Result<seq<Out>, Error>): Result<Out, Error> {
    var items :- r;
    Success(OutList(items))
  }

  function AsSorted(r: Result<seq<Out>, Error>): Result<Out, Error> {
    var items :- r;
    Success(OutSorted(multiset(items)))
  }

  function AsDict(r: Result<seq<(Key, Out)>, Error>): Result<Out, Error> {
    var entries :- r;
    Success(OutDict(entries))
  }

  function AsRecord(r: Result<seq<seq<(Key, Out)>>, Error>): Result<Out, Error> {
    var fields :- r;
    Success(OutDict(Joined(fields)))
  }

  predicate Private(name: string) {
    |name| > 0 && name[0] == '_'
  }

  /** A value in a section. */
  function Redact(c: Setting, section: string, v: Value): Result<Out, Error>
    decreases v, 1
  {
    match v
    case Null => Success(OutNull)
    case Other(text) => Success(OutOther(text))
    case Str(s) => Success(OutStr(c.scrub(s)))
    case List(items) =>
      AsList(Collect(seq(|items|, i requires 0 <= i < |items| => Redact(c, section, items[i]))))
    case Tuple(items) =>
      AsList(Collect(seq(|items|, i requires 0 <= i < |items| => Redact(c, section, items[i]))))
    case SetOf(items) =>
      AsSorted(Collect(seq(|items|, i requires 0 <= i < |items| => Redact(c, section, items[i]))))
    case Dict(entries) =>
      AsDict(Collect(seq(|entries|, i requires 0 <= i < |entries| => RedactEntry(c, section, entries[i]))))
    case Rec(_) => RedactRecord(c, section, v)
  }

  function RedactEntry(c: Setting, section: string, e: (Key, Value)): Result<(Key, Out), Error>
    decreases e
  {
    if e.0.Name? && IsCredentialField(section, e.0.name) then Success((e.0, Marker(c, section, e.0.name, e.1)))
    else Keyed(e.0, Redact(c, section, e.1))
  }

  /** The fields of a record, its private ones left out. */
  function RedactRecord(c: Setting, section: string, v: Value): Result<Out, Error>
    decreases v, 0
  {
    if !v.Rec? then Failure(NotARecord)
    else AsRecord(Collect(seq(|v.fields|, i requires 0 <= i < |v.fields| => RedactField(c, section, v.fields[i]))))
  }

  function RedactField(c: Setting, section: string, f: (string, Value)): Result<seq<(Key, Out)>, Error>
    decreases f
  {
    if Private(f.0) then Success([])
    else if f.0 in MAP_FIELDS && f.1.Dict? then Alone(f.0, RedactMap(c, f.0, f.1))
    else if IsCredentialField(section, f.0) then Success([(Name(f.0), Marker(c, section, f.0, f.1))])
    else Alone(f.0, Redact(c, section, f.1))
  }

  /** A map of credentials: its entries are records in a section named after the map. */
  function RedactMap(c: Setting, name: string, m: Value): Result<Out, Error>
    requires m.Dict?
    decreases m
  {
    AsDict(Collect(seq(|m.entries|, i requires 0 <= i < |m.entries| => RedactMember(c, name, m.entries[i]))))
  }

  function RedactMember(c: Setting, name: string, e: (Key, Value)): Result<(Key, Out), Error>
    decreases e
  {
    Keyed(e.0, RedactRecord(c, name, e.1))
  }

  /** A top-level field: a section of its own. */
  function RedactSection(c: Setting, f: (string, Value)): Result<seq<(Key, Out)>, Error> {
    if Private(f.0) then Success([])
    else if f.0 in MAP_FIELDS && f.1.Dict? then Alone(f.0, RedactMap(c, f.0, f.1))
    else Alone(f.0, Redact(c, f.0, f.1))
  }

  function RedactConfig(c: Setting, cfg: seq<(string, Value)>): Result<Out, Error> {
    AsRecord(Collect(seq(|cfg|, i requires 0 <= i < |cfg| => RedactSection(c, cfg[i]))))
  }

  // ---------------------------------------------------------------- as the source builds it

  lemma CollectSnoc<T>(results: seq<Result<T, Error>>, r: Result<T, Error>)
    ensures Collect(results + [r]) == Then(Collect(results), r)
  {
    assert (results + [r])[..|results|] == results;
  }

  lemma {:induction false} CollectStops<T>(results: seq<Result<T, Error>>, n: nat)
    requires n <= |results| && Collect(results[..n]).Failure?
    ensures Collect(results) == Collect(results[..n])
    decreases |results| - n
  {
    if n < |results| {
      assert results[..n + 1] == results[..n] + [results[n]];
      CollectSnoc(results[..n], results[n]);
      CollectStops(results, n + 1);
    } else {
      assert results[..n] == results;
    }
  }

  /** One more result joins those collected so far. */
  lemma CollectNext<T>(results: seq<Result<T, Error>>, n: nat)
    requires n < |results|
    ensures Collect(results[..n]).Success? && results[n].Failure? ==> Collect(results) == Failure(results[n].error)
    ensures Collect(results[..n]).Success? && results[n].Success? ==>
              Collect(results[..n + 1]) == Success(Collect(results[..n]).value + [results[n].value])
  {
    assert results[..n + 1] == results[..n] + [results[n]];
    CollectSnoc(results[..n], results[n]);
    if Collect(results[..n]).Success? && results[n].Failure? {
      CollectStops(results, n + 1);
    }
  }

  lemma CollectAll<T>(results: seq<Result<T, Error>>)
    ensures Collect(results[..|results|]) == Collect(results)
    ensures Collect(results[..0]) == Success([])
  {
    assert results[..|results|] == results;
  }

  /** The results for the elements of a list, a tuple or a set. */
  method RedactItems(c: Setting, section: string, items: seq<Value>) returns (r: Result<seq<Out>, Error>)
    ensures r == Collect(seq(|items|, i requires 0 <= i < |items| => Redact(c, section, items[i])))
    decreases items
  {
    ghost var results := seq(|items|, i requires 0 <= i < |items| => Redact(c, section, items[i]));
    CollectAll(results);
    var done := [];
    for k := 0 to |items|
      invariant Collect(results[..k]) == Success(done)
    {
      CollectNext(results, k);
      var out :- RedactValue(c, section, items[k]);
      done := done + [out];
    }
    return Success(done);
  }

  method RedactValue(c: Setting, section: string, v: Value) returns (r: Result<Out, Error>)
    ensures r == Redact(c, section, v)
    decreases v, 1
  {
    match v {
      case Null => return Success(OutNull);
      case Other(text) => return Success(OutOther(text));
      case Str(s) => return Success(OutStr(c.scrub(s)));
      case List(items) =>
        var done := RedactItems(c, section, items);
        return AsList(done);
      case Tuple(items) =>
        var done := RedactItems(c, section, items);
        return AsList(done);
      case SetOf(items) =>
        var done := RedactItems(c, section, items);
        return AsSorted(done);
      case Dict(_) =>
        r := RedactDict(c, section, v);
      case Rec(_) =>
        r := RedactDataclass(c, section, v);
    }
  }

  /** A plain dictionary: its keys are classified like field names. */
  method RedactDict(c: Setting, section: string, v: Value) returns (r: Result<Out, Error>)
    requires v.Dict?
    ensures r == Redact(c, section, v)
    decreases v, 0
  {
    var entries := v.entries;
    ghost var results := seq(|entries|, i requires 0 <= i < |entries| => RedactEntry(c, section, entries[i]));
    CollectAll(results);
    var done := [];
    for k := 0 to |entries|
      invariant Collect(results[..k]) == Success(done)
    {
      CollectNext(results, k);
      var key := entries[k].0;
      if key.Name? && IsCredentialField(section, key.name) {
        done := done + [(key, Marker(c, section, key.name, entries[k].1))];
      } else {
        var out :- RedactValue(c, section, entries[k].1);
        done := done + [(key, out)];
      }
    }
    return Success(OutDict(done));
  }

  /** A map of credentials, entry by entry. */
  method RedactMapField(c: Setting, name: string, m: Value) returns (r: Result<Out, Error>)
    requires m.Dict?
    ensures r == RedactMap(c, name, m)
    decreases m
  {
    var entries := m.entries;
    ghost var results := seq(|entries|, i requires 0 <= i < |entries| => RedactMember(c, name, entries[i]));
    CollectAll(results);
    var done := [];
    for k := 0 to |entries|
      invariant Collect(results[..k]) == Success(done)
    {
      CollectNext(results, k);
      var out :- RedactDataclass(c, name, entries[k].1);
      done := done + [(entries[k].0, out)];
    }
    return Success(OutDict(done));
  }

  lemma JoinedSnoc<T>(lists: seq<seq<T>>, l: seq<T>)
    ensures Joined(lists + [l]) == Joined(lists) + l
  {
    assert (lists + [l])[..|lists|] == lists;
  }

  method RedactDataclass(c: Setting, section: string, v: Value) returns (r: Result<Out, Error>)
    ensures r == RedactRecord(c, section, v)
    decreases v, 0
  {
    if !v.Rec? {
      return Failure(NotARecord);
    }
    ghost var results := seq(|v.fields|, i requires 0 <= i < |v.fields| => RedactField(c, section, v.fields[i]));
    ghost var rows: seq<seq<(Key, Out)>> := [];
    CollectAll(results);
    var done := [];
    for k := 0 to |v.fields|
      invariant Collect(results[..k]) == Success(rows) && done == Joined(rows)
    {
      CollectNext(results, k);
      var name, value := v.fields[k].0, v.fields[k].1;
      ghost var row: seq<(Key, Out)> := [];
      if !Private(name) {
        var out;
        if name in MAP_FIELDS && value.Dict? {
          out :- RedactMapField(c, name, value);
        } else if IsCredentialField(section, name) {
          out := Marker(c, section, name, value);
        } else {
          out :- RedactValue(c, section, value);
        }
        done := done + [(Name(name), out)];
        row := [(Name(name), out)];
      }
      JoinedSnoc(rows, row);
      rows := rows + [row];
    }
    return Success(OutDict(done));
  }

  /** The whole configuration. */
  method RedactAppConfig(c: Setting, cfg: seq<(string, Value)>) returns (r: Result<Out, Error>)
    ensures r == RedactConfig(c, cfg)
  {
    ghost var results := seq(|cfg|, i requires 0 <= i < |cfg| => RedactSection(c, cfg[i]));
    ghost var rows: seq<seq<(Key, Out)>> := [];
    CollectAll(results);
    var done := [];
    for k := 0 to |cfg|
      invariant Collect(results[..k]) == Success(rows) && done == Joined(rows)
    {
      CollectNext(results, k);
      var name, value := cfg[k].0, cfg[k].1;
      ghost var row: seq<(Key, Out)> := [];
      if !Private(name) {
        var out;
        if name in MAP_FIELDS && value.Dict? {
          out :- RedactMapField(c, name, value);
        } else if value.Rec? {
          out :- RedactDataclass(c, name, value);
        } else {
          out :- RedactValue(c, name, value);
        }
        done := done + [(Name(name), out)];
        row := [(Name(name), out)];
      }
      JoinedSnoc(rows, row);
      rows := rows + [row];
    }
    return Success(OutDict(done));
  }

  // ---------------------------------------------------------------- non-interference

  /** Two values that differ only at credential positions, each as set in one as in the other,
      and in private fields, which are not shown at all. A set may be iterated in another order. */
  ghost predicate Alike(c: Setting, section: string, a: Value, b: Value)
    decreases a, 1
  {
    match a
    case Null => b == a
    case Other(_) => b == a
    case Str(_) => b == a
    case List(items) => b.List? && AlikeItems(c, section, items, b.items)
    case Tuple(items) => b.Tuple? && AlikeItems(c, section, items, b.items)
    case SetOf(items) =>
      b.SetOf? && exists order: seq<Value> :: AlikeItems(c, section, items, order) && multiset(order) == multiset(b.items)
    case Dict(entries) =>
      b.Dict? && |b.entries| == |entries| && forall i :: 0 <= i < |entries| ==> AlikeEntry(c, section, entries[i], b.entries[i])
    case Rec(_) => AlikeRecord(c, section, a, b)
  }

  ghost predicate AlikeItems(c: Setting, section: string, a: seq<Value>, b: seq<Value>)
    decreases a
  {
    |a| == |b| && forall i :: 0 <= i < |a| ==> Alike(c, section, a[i], b[i])
  }

  ghost predicate AlikeEntry(c: Setting, section: string, a: (Key, Value), b: (Key, Value))
    decreases a
  {
    a.0 == b.0
    && if a.0.Name? && IsCredentialField(section, a.0.name)
       then CredentialIsSet(c, section, a.0.name, a.1) == CredentialIsSet(c, section, a.0.name, b.1)
       else Alike(c, section, a.1, b.1)
  }

  ghost predicate AlikeRecord(c: Setting, section: string, a: Value, b: Value)
    decreases a, 0
  {
    && a.Rec? == b.Rec?
    && (a.Rec? ==> |a.fields| == |b.fields|
                   && forall i :: 0 <= i < |a.fields| ==> AlikeField(c, section, a.fields[i], b.fields[i]))
  }

  ghost predicate AlikeField(c: Setting, section: string, a: (string, Value), b: (string, Value))
    decreases a
  {
    a.0 == b.0
    && if Private(a.0) then true
       else if a.0 in MAP_FIELDS && a.1.Dict? then AlikeMap(c, a.0, a.1, b.1)
       else if IsCredentialField(section, a.0)
       then CredentialIsSet(c, section, a.0, a.1) == CredentialIsSet(c, section, a.0, b.1)
       else Alike(c, section, a.1, b.1)
  }

  ghost predicate AlikeMap(c: Setting, name: string, a: Value, b: Value)
    requires a.Dict?
    decreases a
  {
    b.Dict? && |a.entries| == |b.entries| && forall i :: 0 <= i < |a.entries| ==> AlikeMember(c, name, a.entries[i], b.entries[i])
  }

  ghost predicate AlikeMember(c: Setting, name: string, a: (Key, Value), b: (Key, Value))
    decreases a
  {
    a.0 == b.0 && AlikeRecord(c, name, a.1, b.1)
  }

  /** The same for the fields of the configuration itself, whose names are not classified. */
  ghost predicate AlikeSection(c: Setting, a: (string, Value), b: (string, Value)) {
    a.0 == b.0
    && if Private(a.0) then true
       else if a.0 in MAP_FIELDS && a.1.Dict? then AlikeMap(c, a.0, a.1, b.1)
       else Alike(c, a.0, a.1, b.1)
  }

  ghost predicate AlikeConfig(c: Setting, a: seq<(string, Value)>, b: seq<(string, Value)>) {
    |a| == |b| && forall i :: 0 <= i < |a| ==> AlikeSection(c, a[i], b[i])
  }

  /** The result depends on nothing but what `Alike` values share. */
  lemma {:induction false} AlikeRedactAlike(c: Setting, section: string, a: Value, b: Value)
    requires Alike(c, section, a, b)
    ensures Redact(c, section, a) == Redact(c, section, b)
    decreases a, 1
  {
    match a
    case List(items) => AlikeItemsAlike(c, section, items, b.items);
    case Tuple(items) => AlikeItemsAlike(c, section, items, b.items);
    case SetOf(_) => AlikeSetsAlike(c, section, a, b);
    case Dict(_) => AlikeDictsAlike(c, section, a, b);
    case Rec(_) => AlikeRecordsAlike(c, section, a, b);
    case _ =>
  }

  lemma {:induction false} AlikeItemsAlike(c: Setting, section: string, a: seq<Value>, b: seq<Value>)
    requires AlikeItems(c, section, a, b)
    ensures seq(|a|, i requires 0 <= i < |a| => Redact(c, section, a[i]))
         == seq(|b|, i requires 0 <= i < |b| => Redact(c, section, b[i]))
    decreases a
  {
    forall i | 0 <= i < |a| ensures Redact(c, section, a[i]) == Redact(c, section, b[i]) {
      AlikeRedactAlike(c, section, a[i], b[i]);
    }
  }

  lemma SetsAsCollected(c: Setting, section: string, a: seq<Value>, b: seq<Value>)
    requires seq(|a|, i requires 0 <= i < |a| => Redact(c, section, a[i]))
          == seq(|b|, i requires 0 <= i < |b| => Redact(c, section, b[i]))
    ensures Redact(c, section, SetOf(a)) == Redact(c, section, SetOf(b))
  {
  }

  lemma {:induction false} AlikeSetsAlike(c: Setting, section: string, a: Value, b: Value)
    requires a.SetOf? && Alike(c, section, a, b)
    ensures Redact(c, section, a) == Redact(c, section, b)
    decreases a, 0
  {
    var order: seq<Value> :| AlikeItems(c, section, a.items, order) && multiset(order) == multiset(b.items);
    AlikeItemsAlike(c, section, a.items, order);
    SetsAsCollected(c, section, a.items, order);
    SortedWhateverTheOrder(c, section, order, b.items);
    assert a == SetOf(a.items) && b == SetOf(b.items);
  }

  lemma {:induction false} AlikeDictsAlike(c: Setting, section: string, a: Value, b: Value)
    requires a.Dict? && Alike(c, section, a, b)
    ensures Redact(c, section, a) == Redact(c, section, b)
    decreases a, 0
  {
    forall i | 0 <= i < |a.entries| ensures RedactEntry(c, section, a.entries[i]) == RedactEntry(c, section, b.entries[i]) {
      AlikeEntriesAlike(c, section, a.entries[i], b.entries[i]);
    }
    assert seq(|a.entries|, i requires 0 <= i < |a.entries| => RedactEntry(c, section, a.entries[i]))
        == seq(|b.entries|, i requires 0 <= i < |b.entries| => RedactEntry(c, section, b.entries[i]));
  }

  lemma AlikeEntriesAlike(c: Setting, section: string, a: (Key, Value), b: (Key, Value))
    requires AlikeEntry(c, section, a, b)
    ensures RedactEntry(c, section, a) == RedactEntry(c, section, b)
    decreases a
  {
    if !(a.0.Name? && IsCredentialField(section, a.0.name)) {
      AlikeRedactAlike(c, section, a.1, b.1);
    }
  }

  lemma {:induction false} AlikeRecordsAlike(c: Setting, section: string, a: Value, b: Value)
    requires AlikeRecord(c, section, a, b)
    ensures RedactRecord(c, section, a) == RedactRecord(c, section, b)
    decreases a, 0
  {
    if a.Rec? {
      forall i | 0 <= i < |a.fields| ensures RedactField(c, section, a.fields[i]) == RedactField(c, section, b.fields[i]) {
        AlikeFieldsAlike(c, section, a.fields[i], b.fields[i]);
      }
      assert seq(|a.fields|, i requires 0 <= i < |a.fields| => RedactField(c, section, a.fields[i]))
          == seq(|b.fields|, i requires 0 <= i < |b.fields| => RedactField(c, section, b.fields[i]));
    }
  }

  lemma AlikeFieldsAlike(c: Setting, section: string, a: (string, Value), b: (string, Value))
    requires AlikeField(c, section, a, b)
    ensures RedactField(c, section, a) == RedactField(c, section, b)
    decreases a
  {
    if Private(a.0) {
    } else if a.0 in MAP_FIELDS && a.1.Dict? {
      AlikeMapsAlike(c, a.0, a.1, b.1);
    } else if !IsCredentialField(section, a.0) {
      AlikeRedactAlike(c, section, a.1, b.1);
      AlikeShape(c, section, a.1, b.1);
    } else {
      assert a.0 !in MAP_FIELDS;
    }
  }

  lemma AlikeShape(c: Setting, section: string, a: Value, b: Value)
    requires Alike(c, section, a, b)
    ensures a.Dict? == b.Dict?
  {
    match a
    case Rec(_) => assert AlikeRecord(c, section, a, b);
    case _ =>
  }

  lemma AlikeMapsAlike(c: Setting, name: string, a: Value, b: Value)
    requires a.Dict? && AlikeMap(c, name, a, b)
    ensures RedactMap(c, name, a) == RedactMap(c, name, b)
    decreases a
  {
    forall i | 0 <= i < |a.entries| ensures RedactMember(c, name, a.entries[i]) == RedactMember(c, name, b.entries[i]) {
      AlikeMembersAlike(c, name, a.entries[i], b.entries[i]);
    }
    assert seq(|a.entries|, i requires 0 <= i < |a.entries| => RedactMember(c, name, a.entries[i]))
        == seq(|b.entries|, i requires 0 <= i < |b.entries| => RedactMember(c, name, b.entries[i]));
  }

  lemma AlikeMembersAlike(c: Setting, name: string, a: (Key, Value), b: (Key, Value))
    requires AlikeMember(c, name, a, b)
    ensures RedactMember(c, name, a) == RedactMember(c, name, b)
    decreases a
  {
    AlikeRecordsAlike(c, name, a.1, b.1);
  }

  lemma AlikeSectionsAlike(c: Setting, a: (string, Value), b: (string, Value))
    requires AlikeSection(c, a, b)
    ensures RedactSection(c, a) == RedactSection(c, b)
  {
    if Private(a.0) {
    } else if a.0 in MAP_FIELDS && a.1.Dict? {
      AlikeMapsAlike(c, a.0, a.1, b.1);
    } else {
      AlikeRedactAlike(c, a.0, a.1, b.1);
      AlikeShape(c, a.0, a.1, b.1);
    }
  }

  /** Non-interference: configurations that are alike redact to the identical tree, or both fail. */
  lemma NonInterference(c: Setting, a: seq<(string, Value)>, b: seq<(string, Value)>)
    requires AlikeConfig(c, a, b)
    ensures RedactConfig(c, a) == RedactConfig(c, b)
  {
    forall i | 0 <= i < |a| ensures RedactSection(c, a[i]) == RedactSection(c, b[i]) {
      AlikeSectionsAlike(c, a[i], b[i]);
    }
    assert seq(|a|, i requires 0 <= i < |a| => RedactSection(c, a[i]))
        == seq(|b|, i requires 0 <= i < |b| => RedactSection(c, b[i]));
  }

  // ---------------------------------------------------------------- sets

  /** An element of a list, with what comes before and after it. */
  lemma TakeOut<T>(b: seq<T>, x: T) returns (before: seq<T>, after: seq<T>)
    requires x in multiset(b)
    ensures b == before + [x] + after
    ensures multiset(before + after) == multiset(b) - multiset{x}
  {
    var j :| 0 <= j < |b| && b[j] == x;
    before, after := b[..j], b[j + 1..];
    assert b == before + [x] + after;
  }

  lemma SameLength<T>(a: seq<T>, b: seq<T>)
    requires multiset(a) == multiset(b)
    ensures |a| == |b|
  {
    assert |multiset(a)| == |a| && |multiset(b)| == |b|;
  }

  lemma {:induction false} CollectSame<T>(a: seq<Result<T, Error>>, b: seq<Result<T, Error>>)
    requires multiset(a) == multiset(b)
    ensures SameCollected(Collect(a), Collect(b))
    decreases |a|
  {
    SameLength(a, b);
    if |a| > 0 {
      var init, last := a[..|a| - 1], a[|a| - 1];
      assert a == init + [last];
      var before, after := TakeOut(b, last);
      CollectSame(init, before + after);
      CollectMove(before, last, after);
      CollectSnoc(init, last);
      CollectSnoc(before + after, last);
      SameThen(Collect(init), Collect(before + after), Collect(b), last);
    }
  }

  lemma SameThen<T>(a: Result<seq<T>, Error>, b: Result<seq<T>, Error>, c: Result<seq<T>, Error>, x: Result<T, Error>)
    requires SameCollected(a, b) && SameCollected(c, Then(b, x))
    ensures SameCollected(Then(a, x), c)
  {
  }

  /** The same values in some order, or the same failure. */
  ghost predicate SameCollected<T>(a: Result<seq<T>, Error>, b: Result<seq<T>, Error>) {
    && a.Success? == b.Success?
    && (a.Success? ==> multiset(a.value) == multiset(b.value))
    && (a.Failure? ==> a == b)
  }

  function Then<T>(r: Result<seq<T>, Error>, x: Result<T, Error>): Result<seq<T>, Error> {
    if r.Failure? then r else if x.Failure? then Failure(x.error) else Success(r.value + [x.value])
  }

  lemma OneError(a: Error, b: Error)
    ensures a == b
  {
  }

  lemma ThenSwap<T>(a: Result<seq<T>, Error>, b: Result<seq<T>, Error>, x: Result<T, Error>, y: Result<T, Error>)
    requires SameCollected(a, Then(b, x))
    ensures SameCollected(Then(a, y), Then(Then(b, y), x))
  {
    if x.Failure? && y.Failure? {
      OneError(x.error, y.error);
    }
  }

  /** Moving one result to the end changes only the order. */
  lemma {:induction false} CollectMove<T>(before: seq<Result<T, Error>>, x: Result<T, Error>, after: seq<Result<T, Error>>)
    ensures SameCollected(Collect(before + [x] + after), Collect(before + after + [x]))
    decreases |after|
  {
    if |after| == 0 {
      assert before + [x] + after == before + after + [x];
    } else {
      var init, last := after[..|after| - 1], after[|after| - 1];
      CollectMove(before, x, init);
      assert before + [x] + after == (before + [x] + init) + [last];
      assert before + after == before + init + [last];
      CollectSnoc(before + [x] + init, last);
      CollectSnoc(before + init, x);
      CollectSnoc(before + init, last);
      CollectSnoc(before + after, x);
      ThenSwap(Collect(before + [x] + init), Collect(before + init), x, last);
    }
  }

  lemma SortedWhateverTheOrder(c: Setting, section: string, a: seq<Value>, b: seq<Value>)
    requires multiset(a) == multiset(b)
    ensures Redact(c, section, SetOf(a)) == Redact(c, section, SetOf(b))
  {
    var f := v => Redact(c, section, v);
    MappedSame(f, a, b);
    assert Mapped(f, a) == seq(|a|, i requires 0 <= i < |a| => Redact(c, section, a[i]));
    assert Mapped(f, b) == seq(|b|, i requires 0 <= i < |b| => Redact(c, section, b[i]));
    CollectSame(Mapped(f, a), Mapped(f, b));
  }

  function Mapped<S, T>(f: S -> T, s: seq<S>): seq<T> {
    seq(|s|, i requires 0 <= i < |s| => f(s[i]))
  }

  lemma MappedAppend<S, T>(f: S -> T, a: seq<S>, b: seq<S>)
    ensures Mapped(f, a + b) == Mapped(f, a) + Mapped(f, b)
  {
  }

  lemma {:induction false} MappedSame<S, T>(f: S -> T, a: seq<S>, b: seq<S>)
    requires multiset(a) == multiset(b)
    ensures multiset(Mapped(f, a)) == multiset(Mapped(f, b))
    decreases |a|
  {
    SameLength(a, b);
    if |a| > 0 {
      var init, last := a[..|a| - 1], a[|a| - 1];
      assert a == init + [last];
      var before, after := TakeOut(b, last);
      MappedSame(f, init, before + after);
      MappedAppend(f, init, [last]);
      MappedAppend(f, before + [last], after);
      MappedAppend(f, before, [last]);
      MappedAppend(f, before, after);
    }
  }

  // ---------------------------------------------------------------- markers

  /** One step down a tree: a list element, a field or entry, a member of a set. */
  datatype Step = At(i: nat) | Of(key: Key) | Member(i: nat)

  /** What a key is bound to. */
  function Find<K(==), T>(entries: seq<(K, T)>, key: K): Option<T>
    decreases |entries|
  {
    if |entries| == 0 then None
    else if entries[|entries| - 1].0 == key then Some(entries[|entries| - 1].1)
    else Find(entries[..|entries| - 1], key)
  }

  datatype Position = Position(section: string, name: string, value: Value)

  /** The credential at the end of a path, if there is one. */
  function CredentialAt(section: string, v: Value, path: seq<Step>): Option<Position>
    decreases |path|, 1
  {
    if |path| == 0 then None
    else match v
      case List(items) =>
        if path[0].At? && path[0].i < |items| then CredentialAt(section, items[path[0].i], path[1..]) else None
      case Tuple(items) =>
        if path[0].At? && path[0].i < |items| then CredentialAt(section, items[path[0].i], path[1..]) else None
      case SetOf(items) =>
        if path[0].Member? && path[0].i < |items| then CredentialAt(section, items[path[0].i], path[1..]) else None
      case Dict(entries) =>
        if !path[0].Of? || Find(entries, path[0].key).None? then None
        else CredentialUnder(section, path[0].key, Find(entries, path[0].key).value, path[1..])
      case Rec(fields) =>
        if !path[0].Of? || !path[0].key.Name? || Private(path[0].key.name) || Find(fields, path[0].key.name).None? then None
        else
          CredentialInField(section, (path[0].key.name, Find(fields, path[0].key.name).value), path[1..])
      case _ => None
  }

  function CredentialInField(section: string, f: (string, Value), rest: seq<Step>): Option<Position>
    decreases |rest|, 3
  {
    if f.0 in MAP_FIELDS && f.1.Dict? then CredentialInMap(f.0, f.1, rest)
    else CredentialUnder(section, Name(f.0), f.1, rest)
  }

  function CredentialUnder(section: string, key: Key, value: Value, rest: seq<Step>): Option<Position>
    decreases |rest|, 2
  {
    if key.Name? && IsCredentialField(section, key.name)
    then if |rest| == 0 then Some(Position(section, key.name, value)) else None
    else CredentialAt(section, value, rest)
  }

  function CredentialInMap(name: string, m: Value, path: seq<Step>): Option<Position>
    requires m.Dict?
    decreases |path|, 2
  {
    if |path| == 0 || !path[0].Of? || Find(m.entries, path[0].key).None? || !Find(m.entries, path[0].key).value.Rec? then None
    else CredentialAt(name, Find(m.entries, path[0].key).value, path[1..])
  }

  /** The path leads to `x` in the redacted tree; a set's members have no place of their own. */
  ghost predicate ShowsAt(out: Out, path: seq<Step>, x: Out)
    decreases |path|
  {
    if |path| == 0 then out == x
    else match out
      case OutList(items) => path[0].At? && path[0].i < |items| && ShowsAt(items[path[0].i], path[1..], x)
      case OutSorted(held) => path[0].Member? && exists o :: o in held && ShowsAt(o, path[1..], x)
      case OutDict(entries) =>
        path[0].Of? && Find(entries, path[0].key).Some? && ShowsAt(Find(entries, path[0].key).value, path[1..], x)
      case _ => false
  }

  ghost predicate Last<K, T>(entries: seq<(K, T)>, key: K, i: nat) {
    i < |entries| && entries[i].0 == key && forall j :: i < j < |entries| ==> entries[j].0 != key
  }

  lemma {:induction false} FindFinds<K, T>(entries: seq<(K, T)>, key: K) returns (i: nat)
    requires Find(entries, key).Some?
    ensures Last(entries, key, i) && Find(entries, key) == Some(entries[i].1)
    decreases |entries|
  {
    i := |entries| - 1;
    if entries[i].0 != key {
      i := FindFinds(entries[..i], key);
    }
  }

  lemma {:induction false} LastIsFound<K, T>(entries: seq<(K, T)>, key: K, i: nat)
    requires Last(entries, key, i)
    ensures Find(entries, key) == Some(entries[i].1)
    decreases |entries|
  {
    if i < |entries| - 1 {
      LastIsFound(entries[..|entries| - 1], key, i);
    }
  }

  /** The entry for a key, among rows of at most one entry each. */
  lemma {:induction false} LastRowIsFound<K, T>(rows: seq<seq<(K, T)>>, key: K, i: nat, x: T)
    requires i < |rows| && rows[i] == [(key, x)]
    requires forall j, k :: i < j < |rows| && 0 <= k < |rows[j]| ==> rows[j][k].0 != key
    ensures Find(Joined(rows), key) == Some(x)
    decreases |rows|
  {
    var n := |rows| - 1;
    if i < n {
      LastRowIsFound(rows[..n], key, i, x);
      FindSkips(Joined(rows[..n]), rows[n], key);
    } else {
      var all := Joined(rows[..n]) + rows[n];
      assert all[|all| - 1] == (key, x);
    }
  }

  lemma {:induction false} FindSkips<K, T>(entries: seq<(K, T)>, more: seq<(K, T)>, key: K)
    requires forall k :: 0 <= k < |more| ==> more[k].0 != key
    ensures Find(entries + more, key) == Find(entries, key)
    decreases |more|
  {
    if |more| > 0 {
      assert (entries + more)[..|entries + more| - 1] == entries + more[..|more| - 1];
      FindSkips(entries, more[..|more| - 1], key);
    } else {
      assert entries + more == entries;
    }
  }

  lemma {:induction false} CollectAt<T>(results: seq<Result<T, Error>>)
    requires Collect(results).Success?
    ensures |Collect(results).value| == |results|
    ensures forall i :: 0 <= i < |results| ==> results[i].Success? && Collect(results).value[i] == results[i].value
    decreases |results|
  {
    if |results| > 0 {
      CollectAt(results[..|results| - 1]);
    }
  }

  /** Every credential, at any nesting, is shown as the marker that says whether it is set. */
  lemma {:induction false} CredentialsAreMarked(c: Setting, section: string, v: Value, path: seq<Step>)
    requires CredentialAt(section, v, path).Some? && Redact(c, section, v).Success?
    ensures var p := CredentialAt(section, v, path).value;
            ShowsAt(Redact(c, section, v).value, path, Marker(c, p.section, p.name, p.value))
    decreases |path|, 1
  {
    match v
    case List(items) => ItemIsMarked(c, section, items, path);
    case Tuple(items) => ItemIsMarked(c, section, items, path);
    case SetOf(items) =>
      ItemIsMarked(c, section, items, path);
      assert Redact(c, section, items[path[0].i]).value in Redact(c, section, v).value.held;
    case Dict(_) => DictsAreMarked(c, section, v, path);
    case Rec(_) => RecordsAreMarked(c, section, v, path);
  }

  lemma {:induction false} ItemIsMarked(c: Setting, section: string, items: seq<Value>, path: seq<Step>)
    requires |path| > 0 && !path[0].Of? && path[0].i < |items| && CredentialAt(section, items[path[0].i], path[1..]).Some?
    requires Collect(seq(|items|, i requires 0 <= i < |items| => Redact(c, section, items[i]))).Success?
    ensures var outs := Collect(seq(|items|, i requires 0 <= i < |items| => Redact(c, section, items[i]))).value;
            var p := CredentialAt(section, items[path[0].i], path[1..]).value;
            && |outs| == |items|
            && Redact(c, section, items[path[0].i]) == Success(outs[path[0].i])
            && ShowsAt(outs[path[0].i], path[1..], Marker(c, p.section, p.name, p.value))
    decreases |path|, 0
  {
    var rows := seq(|items|, i requires 0 <= i < |items| => Redact(c, section, items[i]));
    CollectAt(rows);
    assert rows[path[0].i].Success?;
    CredentialsAreMarked(c, section, items[path[0].i], path[1..]);
  }

  lemma {:induction false} DictsAreMarked(c: Setting, section: string, v: Value, path: seq<Step>)
    requires v.Dict? && CredentialAt(section, v, path).Some? && Redact(c, section, v).Success?
    ensures var p := CredentialAt(section, v, path).value;
            ShowsAt(Redact(c, section, v).value, path, Marker(c, p.section, p.name, p.value))
    decreases |path|, 0
  {
    var key := path[0].key;
    var i := FindFinds(v.entries, key);
    var rows := seq(|v.entries|, i requires 0 <= i < |v.entries| => RedactEntry(c, section, v.entries[i]));
    CollectAt(rows);
    forall j | 0 <= j < |v.entries| ensures Collect(rows).value[j].0 == v.entries[j].0 {
      assert rows[j] == RedactEntry(c, section, v.entries[j]);
    }
    assert rows[i] == RedactEntry(c, section, v.entries[i]);
    LastIsFound(Collect(rows).value, key, i);
    if !(key.Name? && IsCredentialField(section, key.name)) {
      CredentialsAreMarked(c, section, v.entries[i].1, path[1..]);
    }
  }

  lemma {:induction false} RecordsAreMarked(c: Setting, section: string, v: Value, path: seq<Step>)
    requires v.Rec? && CredentialAt(section, v, path).Some? && RedactRecord(c, section, v).Success?
    ensures var p := CredentialAt(section, v, path).value;
            ShowsAt(RedactRecord(c, section, v).value, path, Marker(c, p.section, p.name, p.value))
    decreases |path|, 0
  {
    var name := path[0].key.name;
    var i := FindFinds(v.fields, name);
    FieldIsFound(c, section, v, i);
    FieldIsMarked(c, section, v.fields[i], path[1..]);
  }

  /** The row of a name: nothing if it is private, else its one entry. */
  ghost predicate RowFor(row: Result<seq<(Key, Out)>, Error>, name: string) {
    && row.Success?
    && if Private(name) then row.value == [] else |row.value| == 1 && row.value[0].0 == Name(name)
  }

  /** The last row of a name is what is found under it. */
  lemma RowIsFound(rows: seq<Result<seq<(Key, Out)>, Error>>, names: seq<string>, i: nat)
    requires Collect(rows).Success? && |names| == |rows| && i < |rows|
    requires forall j :: 0 <= j < |rows| ==> RowFor(rows[j], names[j])
    requires !Private(names[i]) && forall j :: i < j < |names| ==> names[j] != names[i]
    ensures rows[i].Success? && |rows[i].value| == 1
    ensures Find(Joined(Collect(rows).value), Name(names[i])) == Some(rows[i].value[0].1)
  {
    CollectAt(rows);
    var cells: seq<seq<(Key, Out)>> := Collect(rows).value;
    assert RowFor(rows[i], names[i]);
    assert cells[i] == [(Name(names[i]), cells[i][0].1)];
    forall j, k | i < j < |cells| && 0 <= k < |cells[j]| ensures cells[j][k].0 != Name(names[i]) {
      assert RowFor(rows[j], names[j]);
    }
    LastRowIsFound(cells, Name(names[i]), i, cells[i][0].1);
  }

  /** The last field of a name is what the redacted record shows under it. */
  lemma FieldIsFound(c: Setting, section: string, v: Value, i: nat)
    requires v.Rec? && RedactRecord(c, section, v).Success?
    requires i < |v.fields| && Last(v.fields, v.fields[i].0, i) && !Private(v.fields[i].0)
    ensures var row := RedactField(c, section, v.fields[i]);
            && row.Success?
            && |row.value| == 1
            && Find(RedactRecord(c, section, v).value.entries, Name(v.fields[i].0)) == Some(row.value[0].1)
  {
    var rows := seq(|v.fields|, i requires 0 <= i < |v.fields| => RedactField(c, section, v.fields[i]));
    var names := seq(|v.fields|, i requires 0 <= i < |v.fields| => v.fields[i].0);
    CollectAt(rows);
    forall j | 0 <= j < |rows| ensures RowFor(rows[j], names[j]) {
      assert rows[j] == RedactField(c, section, v.fields[j]);
      RowNames(c, section, v.fields[j]);
    }
    assert RowFor(rows[i], names[i]);
    RowIsFound(rows, names, i);
  }

  /** The same for the configuration itself. */
  lemma SectionIsFound(c: Setting, cfg: seq<(string, Value)>, i: nat)
    requires RedactConfig(c, cfg).Success?
    requires i < |cfg| && Last(cfg, cfg[i].0, i) && !Private(cfg[i].0)
    ensures var row := RedactSection(c, cfg[i]);
            && row.Success?
            && |row.value| == 1
            && Find(RedactConfig(c, cfg).value.entries, Name(cfg[i].0)) == Some(row.value[0].1)
  {
    var rows := seq(|cfg|, i requires 0 <= i < |cfg| => RedactSection(c, cfg[i]));
    var names := seq(|cfg|, i requires 0 <= i < |cfg| => cfg[i].0);
    CollectAt(rows);
    forall j | 0 <= j < |rows| ensures RowFor(rows[j], names[j]) {
      assert rows[j] == RedactSection(c, cfg[j]);
      SectionRowNames(c, cfg[j]);
    }
    assert RowFor(rows[i], names[i]);
    RowIsFound(rows, names, i);
  }

  lemma {:induction false} FieldIsMarked(c: Setting, section: string, f: (string, Value), rest: seq<Step>)
    requires !Private(f.0) && RedactField(c, section, f).Success?
    requires CredentialInField(section, f, rest).Some?
    ensures var p := CredentialInField(section, f, rest).value;
            var row := RedactField(c, section, f).value;
            |row| == 1 && ShowsAt(row[0].1, rest, Marker(c, p.section, p.name, p.value))
    decreases |rest|, 3
  {
    if f.0 in MAP_FIELDS && f.1.Dict? {
      MapsAreMarked(c, f.0, f.1, rest);
    } else if !IsCredentialField(section, f.0) {
      CredentialsAreMarked(c, section, f.1, rest);
    }
  }

  lemma RowNames(c: Setting, section: string, f: (string, Value))
    requires RedactField(c, section, f).Success?
    ensures var row := RedactField(c, section, f).value;
            if Private(f.0) then row == [] else |row| == 1 && row[0].0 == Name(f.0)
  {
  }

  lemma {:induction false} MapsAreMarked(c: Setting, name: string, m: Value, path: seq<Step>)
    requires m.Dict? && CredentialInMap(name, m, path).Some? && RedactMap(c, name, m).Success?
    ensures var p := CredentialInMap(name, m, path).value;
            ShowsAt(RedactMap(c, name, m).value, path, Marker(c, p.section, p.name, p.value))
    decreases |path|, 2
  {
    var i := FindFinds(m.entries, path[0].key);
    var rows := seq(|m.entries|, i requires 0 <= i < |m.entries| => RedactMember(c, name, m.entries[i]));
    CollectAt(rows);
    forall j | 0 <= j < |m.entries| ensures Collect(rows).value[j].0 == m.entries[j].0 {
      assert rows[j] == RedactMember(c, name, m.entries[j]);
    }
    assert rows[i] == RedactMember(c, name, m.entries[i]);
    LastIsFound(Collect(rows).value, path[0].key, i);
    RecordsAreMarked(c, name, m.entries[i].1, path[1..]);
  }

  /** Where the configuration itself holds credentials: its own field names are not classified. */
  function CredentialInConfig(cfg: seq<(string, Value)>, path: seq<Step>): Option<Position> {
    if |path| == 0 || !path[0].Of? || !path[0].key.Name? || Private(path[0].key.name) then None
    else
      var name := path[0].key.name;
      match Find(cfg, name)
      case None => None
      case Some(value) =>
        if name in MAP_FIELDS && value.Dict? then CredentialInMap(name, value, path[1..])
        else CredentialAt(name, value, path[1..])
  }

  lemma SectionRowNames(c: Setting, f: (string, Value))
    requires RedactSection(c, f).Success?
    ensures var row := RedactSection(c, f).value;
            if Private(f.0) then row == [] else |row| == 1 && row[0].0 == Name(f.0)
  {
  }

  /** Every credential position of a configuration ends up as one of the two markers, the one
      that tells its status, at the same place in the output. */
  lemma {:induction false} EveryCredentialIsMarked(c: Setting, cfg: seq<(string, Value)>, path: seq<Step>)
    requires CredentialInConfig(cfg, path).Some? && RedactConfig(c, cfg).Success?
    ensures var p := CredentialInConfig(cfg, path).value;
            && ShowsAt(RedactConfig(c, cfg).value, path, Marker(c, p.section, p.name, p.value))
            && IsCredentialField(p.section, p.name)
  {
    var i := FindFinds(cfg, path[0].key.name);
    SectionIsFound(c, cfg, i);
    SectionIsMarked(c, cfg[i], path);
  }

  lemma SectionIsMarked(c: Setting, f: (string, Value), path: seq<Step>)
    requires |path| > 0 && !Private(f.0) && RedactSection(c, f).Success?
    requires (if f.0 in MAP_FIELDS && f.1.Dict? then CredentialInMap(f.0, f.1, path[1..])
              else CredentialAt(f.0, f.1, path[1..])).Some?
    ensures var p := (if f.0 in MAP_FIELDS && f.1.Dict? then CredentialInMap(f.0, f.1, path[1..])
                      else CredentialAt(f.0, f.1, path[1..])).value;
            var row := RedactSection(c, f).value;
            && |row| == 1
            && ShowsAt(row[0].1, path[1..], Marker(c, p.section, p.name, p.value))
            && IsCredentialField(p.section, p.name)
  {
    if f.0 in MAP_FIELDS && f.1.Dict? {
      MapsAreMarked(c, f.0, f.1, path[1..]);
      PositionsInMaps(f.0, f.1, path[1..]);
    } else {
      CredentialsAreMarked(c, f.0, f.1, path[1..]);
      PositionsAreCredentials(f.0, f.1, path[1..]);
    }
  }

  lemma {:induction false} PositionsAreCredentials(section: string, v: Value, path: seq<Step>)
    requires CredentialAt(section, v, path).Some?
    ensures var p := CredentialAt(section, v, path).value; IsCredentialField(p.section, p.name)
    decreases |path|, 0
  {
    match v
    case List(items) => PositionsAreCredentials(section, items[path[0].i], path[1..]);
    case Tuple(items) => PositionsAreCredentials(section, items[path[0].i], path[1..]);
    case SetOf(items) => PositionsAreCredentials(section, items[path[0].i], path[1..]);
    case Dict(entries) =>
      if !(path[0].key.Name? && IsCredentialField(section, path[0].key.name)) {
        PositionsAreCredentials(section, Find(entries, path[0].key).value, path[1..]);
      }
    case Rec(fields) => PositionsInFields(section, (path[0].key.name, Find(fields, path[0].key.name).value), path[1..]);
  }

  lemma {:induction false} PositionsInFields(section: string, f: (string, Value), rest: seq<Step>)
    requires CredentialInField(section, f, rest).Some?
    ensures var p := CredentialInField(section, f, rest).value; IsCredentialField(p.section, p.name)
    decreases |rest|, 2
  {
    if f.0 in MAP_FIELDS && f.1.Dict? {
      PositionsInMaps(f.0, f.1, rest);
    } else if !IsCredentialField(section, f.0) {
      PositionsAreCredentials(section, f.1, rest);
    }
  }

  lemma {:induction false} PositionsInMaps(name: string, m: Value, path: seq<Step>)
    requires m.Dict? && CredentialInMap(name, m, path).Some?
    ensures var p := CredentialInMap(name, m, path).value; IsCredentialField(p.section, p.name)
    decreases |path|, 1
  {
    PositionsAreCredentials(name, Find(m.entries, path[0].key).value, path[1..]);
  }

  // ---------------------------------------------------------------- the relation and the classifier

  lemma {:induction false} AlikeItself(c: Setting, section: string, v: Value)
    ensures Alike(c, section, v, v)
    decreases v, 1
  {
    match v
    case List(items) => ItemsAlikeThemselves(c, section, items);
    case Tuple(items) => ItemsAlikeThemselves(c, section, items);
    case SetOf(items) => ItemsAlikeThemselves(c, section, items);
    case Dict(entries) =>
      forall i | 0 <= i < |entries| ensures AlikeEntry(c, section, entries[i], entries[i]) {
        EntryAlikeItself(c, section, entries[i]);
      }
    case Rec(_) => RecordAlikeItself(c, section, v);
    case _ =>
  }

  lemma {:induction false} ItemsAlikeThemselves(c: Setting, section: string, items: seq<Value>)
    ensures AlikeItems(c, section, items, items)
    decreases items
  {
    forall i | 0 <= i < |items| ensures Alike(c, section, items[i], items[i]) {
      AlikeItself(c, section, items[i]);
    }
  }

  lemma EntryAlikeItself(c: Setting, section: string, e: (Key, Value))
    ensures AlikeEntry(c, section, e, e)
    decreases e
  {
    AlikeItself(c, section, e.1);
  }

  lemma RecordAlikeItself(c: Setting, section: string, v: Value)
    ensures AlikeRecord(c, section, v, v)
    decreases v, 0
  {
    if v.Rec? {
      forall i | 0 <= i < |v.fields| ensures AlikeField(c, section, v.fields[i], v.fields[i]) {
        FieldAlikeItself(c, section, v.fields[i]);
      }
    }
  }

  lemma FieldAlikeItself(c: Setting, section: string, f: (string, Value))
    ensures AlikeField(c, section, f, f)
    decreases f
  {
    AlikeItself(c, section, f.1);
    if f.0 in MAP_FIELDS && f.1.Dict? {
      MapAlikeItself(c, f.0, f.1);
    }
  }

  lemma MapAlikeItself(c: Setting, name: string, m: Value)
    requires m.Dict?
    ensures AlikeMap(c, name, m, m)
    decreases m, 0
  {
    forall i | 0 <= i < |m.entries| ensures AlikeMember(c, name, m.entries[i], m.entries[i]) {
      MemberAlikeItself(c, name, m.entries[i]);
    }
  }

  lemma MemberAlikeItself(c: Setting, name: string, e: (Key, Value))
    ensures AlikeMember(c, name, e, e)
    decreases e
  {
    RecordAlikeItself(c, name, e.1);
  }

  lemma MarkersDiffer()
    ensures REDACTED_SET != REDACTED_UNSET
  {
    assert |REDACTED_SET| != |REDACTED_UNSET|;
  }

  /** Outside the safe list and the registry, the case of the letters makes no difference. */
  lemma ClassifiedWhateverTheCase(section: string, a: string, b: string)
    requires |a| == |b| && forall i :: 0 <= i < |a| ==> Fold(a[i]) == Fold(b[i])
    requires a !in SAFE_FIELDS && b !in SAFE_FIELDS
    requires (section, a) !in REGISTRY && (section, b) !in REGISTRY
    ensures IsCredentialField(section, a) <==> IsCredentialField(section, b)
  {
    forall i | 0 <= i < |WORDS| ensures Contains(a, WORDS[i]) <==> Contains(b, WORDS[i]) {
      ContainsWhateverTheCase(a, b, WORDS[i]);
    }
  }

  lemma ContainsWhateverTheCase(a: string, b: string, word: string)
    requires |a| == |b| && forall i :: 0 <= i < |a| ==> Fold(a[i]) == Fold(b[i])
    ensures Contains(a, word) <==> Contains(b, word)
  {
    forall at | 0 <= at <= |a| ensures MatchesAt(a, at, word) <==> MatchesAt(b, at, word) {
    }
  }
}

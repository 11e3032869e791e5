/** What the two markers and the names that get one mean, without the functions that decide it. */
module RedactionMeaning {
  import opened Redaction
  import opened Text
  import opened Wrappers

  // ---------------------------------------------------------------- whether a credential is set

  /** Some character of the text is not white space. */
  ghost predicate Shows(text: string) {
    exists i :: 0 <= i < |text| && !IsSpace(text[i])
  }

  /** A value that prints as some text. */
  ghost predicate Printed(value: Value) {
    match value
    case Null => false
    case Str(s) => Shows(s)
    case Other(text) => Shows(text)
    case List(_) | Tuple(_) | SetOf(_) | Dict(_) | Rec(_) => true
  }

  /** The environment variable that stands in for a registered credential. */
  ghost function Variable(section: string, name: string): Option<string> {
    if section == "connectors" && name == "vault_token" then Some("VAULT_TOKEN")
    else if section == "connectors" && name == "adcs_password" then Some("QUIRK_ADCS_PASSWORD")
    else if section == "connectors" && name == "pg_scanner_password" then Some("QUIRK_PG_SCANNER_PASSWORD")
    else if section == "connectors" && name == "mysql_scanner_password" then Some("QUIRK_MYSQL_SCANNER_PASSWORD")
    else if section == "connectors" && name == "snmp_community" then Some("QUIRK_SNMP_COMMUNITY")
    else if section == "security" && name == "api_token" then Some("QUIRK_API_TOKEN")
    else None
  }

  ghost predicate HasValue(c: Setting, p: Position) {
    var variable := Variable(p.section, p.name);
    Printed(p.value) || (variable.Some? && variable.value in c.env && Shows(c.env[variable.value]))
  }

  lemma BlankIs(text: string)
    ensures Blank(text) <==> !Shows(text)
  {
    if !Blank(text) {
      var ch :| ch in text && !IsSpace(ch);
      var i :| 0 <= i < |text| && text[i] == ch;
    }
    if i :| 0 <= i < |text| && !IsSpace(text[i]) {
      assert text[i] in text;
    }
  }

  lemma PrintedIs(value: Value)
    ensures Present(value) <==> Printed(value)
  {
    match value
    case Str(s) => BlankIs(s);
    case Other(text) => BlankIs(text);
    case _ =>
  }

  lemma VariableIs(section: string, name: string)
    ensures (section, name) in REGISTRY <==> Variable(section, name).Some?
    ensures (section, name) in REGISTRY ==> REGISTRY[(section, name)] == Variable(section, name).value
  {
  }

  lemma SetIs(c: Setting, p: Position)
    ensures CredentialIsSet(c, p.section, p.name, p.value) <==> HasValue(c, p)
  {
    PrintedIs(p.value);
    VariableIs(p.section, p.name);
    if Variable(p.section, p.name).Some? && Variable(p.section, p.name).value in c.env {
      BlankIs(c.env[Variable(p.section, p.name).value]);
    }
  }

  /** At every credential position, at any nesting, the output says "(set)" if the value prints as
      anything but white space, or if the position's variable is in the environment and not blank;
      otherwise it says "(not set)". */
  lemma MarkersTellTheStatus(c: Setting, cfg: seq<(string, Value)>, path: seq<Step>)
    requires CredentialInConfig(cfg, path).Some? && RedactConfig(c, cfg).Success?
    ensures var p := CredentialInConfig(cfg, path).value;
            && (HasValue(c, p) ==> ShowsAt(RedactConfig(c, cfg).value, path, OutStr("\U{2022}\U{2022}\U{2022}\U{2022} (set)")))
            && (!HasValue(c, p) ==> ShowsAt(RedactConfig(c, cfg).value, path, OutStr("\U{2022}\U{2022}\U{2022}\U{2022} (not set)")))
  {
    EveryCredentialIsMarked(c, cfg, path);
    SetIs(c, CredentialInConfig(cfg, path).value);
  }

  // ---------------------------------------------------------------- which names are credentials

  /** The letter in either case; four look-alikes fold to a letter too. */
  ghost predicate Reads(c: char, letter: char) {
    || c == letter
    || ('a' <= letter <= 'z' && c == 'A' + (letter - 'a'))
    || (letter == 's' && c == '\U{17F}')
    || (letter == 'k' && c == '\U{212A}')
    || (letter == 'i' && (c == '\U{130}' || c == '\U{131}'))
  }

  ghost predicate Spells(text: string, word: string) {
    |text| == |word| && forall i :: 0 <= i < |word| ==> Reads(text[i], word[i])
  }

  /** The word stands somewhere in the name. */
  ghost predicate Mentions(name: string, word: string) {
    exists a, v, b :: name == a + v + b && Spells(v, word)
  }

  lemma ReadsIs(c: char, letter: char)
    requires 'a' <= letter <= 'z' || letter == '_'
    ensures Fold(c) == letter <==> Reads(c, letter)
  {
  }

  ghost predicate Plain(word: string) {
    forall i :: 0 <= i < |word| ==> 'a' <= word[i] <= 'z' || word[i] == '_'
  }

  lemma WordsArePlain(i: nat)
    requires i < |WORDS|
    ensures Plain(WORDS[i])
  {
  }

  lemma MatchIs(name: string, at: nat, word: string)
    requires Plain(word)
    ensures MatchesAt(name, at, word) <==> at + |word| <= |name| && Spells(name[at..at + |word|], word)
  {
    if at + |word| <= |name| {
      forall i | 0 <= i < |word| ensures Fold(name[at + i]) == word[i] <==> Reads(name[at..at + |word|][i], word[i]) {
        ReadsIs(name[at + i], word[i]);
      }
    }
  }

  lemma MentionsIs(name: string, word: string)
    requires Plain(word)
    ensures Contains(name, word) <==> Mentions(name, word)
  {
    if Contains(name, word) {
      var at :| 0 <= at <= |name| && MatchesAt(name, at, word);
      MatchIs(name, at, word);
      assert name == name[..at] + name[at..at + |word|] + name[at + |word|..];
    }
    if a, v, b :| name == a + v + b && Spells(v, word) {
      assert name[|a|..|a| + |word|] == v;
      MatchIs(name, |a|, word);
    }
  }

  /** Outside the safe list, a name is a credential's if and only if it is registered for its section or
      mentions a listed word. */
  lemma CredentialExactlyWhen(section: string, name: string)
    ensures IsCredentialField(section, name) <==>
              && name !in SAFE_FIELDS
              && (Variable(section, name).Some? || exists i :: 0 <= i < |WORDS| && Mentions(name, WORDS[i]))
  {
    VariableIs(section, name);
    forall i | 0 <= i < |WORDS| ensures Contains(name, WORDS[i]) <==> Mentions(name, WORDS[i]) {
      WordsArePlain(i);
      MentionsIs(name, WORDS[i]);
    }
  }

  // ---------------------------------------------------------------- when redaction succeeds

  /** A credential map, in which every entry is to be a record. */
  ghost predicate IsMap(name: string, value: Value) {
    (name == "broker_credentials" || name == "snmp_v3_credentials") && value.Dict?
  }

  /** Nothing that is looked into is a credential map with an entry that is no record. What is behind
      a credential's name or a private one is not looked into. */
  ghost predicate Displayable(section: string, v: Value)
    decreases v, 1
  {
    match v
    case Null => true
    case Other(_) => true
    case Str(_) => true
    case List(items) => forall i :: 0 <= i < |items| ==> Displayable(section, items[i])
    case Tuple(items) => forall i :: 0 <= i < |items| ==> Displayable(section, items[i])
    case SetOf(items) => forall i :: 0 <= i < |items| ==> Displayable(section, items[i])
    case Dict(entries) =>
      forall i :: 0 <= i < |entries| ==>
        (entries[i].0.Name? && IsCredentialField(section, entries[i].0.name)) || Displayable(section, entries[i].1)
    case Rec(fields) => forall i :: 0 <= i < |fields| ==> FieldDisplayable(section, fields[i])
  }

  ghost predicate FieldDisplayable(section: string, f: (string, Value))
    decreases f
  {
    || (|f.0| > 0 && f.0[0] == '_')
    || (if IsMap(f.0, f.1) then MapDisplayable(f.0, f.1)
        else IsCredentialField(section, f.0) || Displayable(section, f.1))
  }

  /** Every entry is a record, itself displayable in a section of the map's name. */
  ghost predicate MapDisplayable(name: string, m: Value)
    decreases m, 0
  {
    m.Dict? && forall i :: 0 <= i < |m.entries| ==> m.entries[i].1.Rec? && Displayable(name, m.entries[i].1)
  }

  /** The same for a whole configuration, whose fields are not classified by name. */
  ghost predicate AllDisplayable(cfg: seq<(string, Value)>) {
    forall i :: 0 <= i < |cfg| ==>
      || (|cfg[i].0| > 0 && cfg[i].0[0] == '_')
      || (if IsMap(cfg[i].0, cfg[i].1) then MapDisplayable(cfg[i].0, cfg[i].1) else Displayable(cfg[i].0, cfg[i].1))
  }

  lemma {:induction false} CollectSucceeds<T>(results: seq<Result<T, Error>>)
    ensures Collect(results).Success? <==> forall i :: 0 <= i < |results| ==> results[i].Success?
    decreases |results|
  {
    if |results| > 0 {
      var last := |results| - 1;
      CollectSucceeds(results[..last]);
      assert forall i :: 0 <= i < last ==> results[..last][i] == results[i];
    }
  }

  lemma MapIs(name: string, value: Value)
    ensures IsMap(name, value) <==> name in MAP_FIELDS && value.Dict?
  {
  }

  lemma ItemsSucceed(c: Setting, section: string, items: seq<Value>)
    requires forall i :: 0 <= i < |items| ==> (Redact(c, section, items[i]).Success? <==> Displayable(section, items[i]))
    ensures Collect(seq(|items|, i requires 0 <= i < |items| => Redact(c, section, items[i]))).Success? <==>
              forall i :: 0 <= i < |items| ==> Displayable(section, items[i])
  {
    var results := seq(|items|, i requires 0 <= i < |items| => Redact(c, section, items[i]));
    CollectSucceeds(results);
    assert forall i :: 0 <= i < |items| ==> results[i] == Redact(c, section, items[i]);
  }

  lemma {:induction false} ValueSucceeds(c: Setting, section: string, v: Value)
    ensures Redact(c, section, v).Success? <==> Displayable(section, v)
    decreases v, 2
  {
    match v
    case List(items) => ItemsEach(c, section, v, items); ItemsSucceed(c, section, items);
    case Tuple(items) => ItemsEach(c, section, v, items); ItemsSucceed(c, section, items);
    case SetOf(items) => ItemsEach(c, section, v, items); ItemsSucceed(c, section, items);
    case Dict(_) => DictSucceeds(c, section, v);
    case Rec(_) => RecordSucceeds(c, section, v);
    case _ =>
  }

  lemma {:induction false} ItemsEach(c: Setting, section: string, v: Value, items: seq<Value>)
    requires v == List(items) || v == Tuple(items) || v == SetOf(items)
    ensures forall i :: 0 <= i < |items| ==> (Redact(c, section, items[i]).Success? <==> Displayable(section, items[i]))
    decreases v, 0
  {
    forall i | 0 <= i < |items| ensures Redact(c, section, items[i]).Success? <==> Displayable(section, items[i]) {
      ValueSucceeds(c, section, items[i]);
    }
  }

  lemma {:induction false} DictSucceeds(c: Setting, section: string, v: Value)
    requires v.Dict?
    ensures Redact(c, section, v).Success? <==> Displayable(section, v)
    decreases v, 0
  {
    var results := seq(|v.entries|, i requires 0 <= i < |v.entries| => RedactEntry(c, section, v.entries[i]));
    CollectSucceeds(results);
    forall i | 0 <= i < |v.entries|
      ensures results[i].Success? <==>
                (v.entries[i].0.Name? && IsCredentialField(section, v.entries[i].0.name)) || Displayable(section, v.entries[i].1)
    {
      ValueSucceeds(c, section, v.entries[i].1);
    }
  }

  lemma {:induction false} RecordSucceeds(c: Setting, section: string, v: Value)
    ensures RedactRecord(c, section, v).Success? <==> v.Rec? && Displayable(section, v)
    decreases v, 0
  {
    if v.Rec? {
      var results := seq(|v.fields|, i requires 0 <= i < |v.fields| => RedactField(c, section, v.fields[i]));
      CollectSucceeds(results);
      forall i | 0 <= i < |v.fields| ensures results[i].Success? <==> FieldDisplayable(section, v.fields[i]) {
        FieldSucceeds(c, section, v.fields[i]);
      }
    }
  }

  lemma {:induction false} FieldSucceeds(c: Setting, section: string, f: (string, Value))
    ensures RedactField(c, section, f).Success? <==> FieldDisplayable(section, f)
    decreases f
  {
    MapIs(f.0, f.1);
    if IsMap(f.0, f.1) {
      MapSucceeds(c, f.0, f.1);
    } else {
      ValueSucceeds(c, section, f.1);
    }
  }

  lemma {:induction false} MapSucceeds(c: Setting, name: string, m: Value)
    requires m.Dict?
    ensures RedactMap(c, name, m).Success? <==> MapDisplayable(name, m)
    decreases m
  {
    var results := seq(|m.entries|, i requires 0 <= i < |m.entries| => RedactMember(c, name, m.entries[i]));
    CollectSucceeds(results);
    forall i | 0 <= i < |m.entries|
      ensures results[i].Success? <==> m.entries[i].1.Rec? && Displayable(name, m.entries[i].1)
    {
      RecordSucceeds(c, name, m.entries[i].1);
    }
  }

  /** A configuration is redacted unless a credential map that is looked into holds something that is
      no record; the environment and what the credentials are make no difference. */
  lemma RedactsExactlyWhen(c: Setting, cfg: seq<(string, Value)>)
    ensures RedactConfig(c, cfg).Success? <==> AllDisplayable(cfg)
  {
    var results := seq(|cfg|, i requires 0 <= i < |cfg| => RedactSection(c, cfg[i]));
    CollectSucceeds(results);
    forall i | 0 <= i < |cfg|
      ensures results[i].Success? <==>
                || (|cfg[i].0| > 0 && cfg[i].0[0] == '_')
                || (if IsMap(cfg[i].0, cfg[i].1) then MapDisplayable(cfg[i].0, cfg[i].1) else Displayable(cfg[i].0, cfg[i].1))
    {
      MapIs(cfg[i].0, cfg[i].1);
      if IsMap(cfg[i].0, cfg[i].1) {
        MapSucceeds(c, cfg[i].0, cfg[i].1);
      } else {
        ValueSucceeds(c, cfg[i].0, cfg[i].1);
      }
    }
  }
}

/** Which leaves of a configuration are shown: all of them, scrubbed, but those under a credential
    position; and the one level whose names are not classified. */
module RedactionLeaves {
  import opened Redaction
  import opened Wrappers

  predicate IsLeaf(v: Value) {
    v.Null? || v.Other? || v.Str?
  }

  /** How a leaf is shown in the clear. */
  function Shown(c: Setting, leaf: Value): Out
    requires IsLeaf(leaf)
  {
    match leaf
    case Null => OutNull
    case Other(text) => OutOther(text)
    case Str(s) => OutStr(c.scrub(s))
  }

  /** The value at the end of a path, wherever credentials are; private fields are not reached. */
  function ValueAt(v: Value, path: seq<Step>): Option<Value>
    decreases |path|
  {
    if |path| == 0 then Some(v)
    else match v
      case List(items) => if path[0].At? && path[0].i < |items| then ValueAt(items[path[0].i], path[1..]) else None
      case Tuple(items) => if path[0].At? && path[0].i < |items| then ValueAt(items[path[0].i], path[1..]) else None
      case SetOf(items) => if path[0].Member? && path[0].i < |items| then ValueAt(items[path[0].i], path[1..]) else None
      case Dict(entries) =>
        if !path[0].Of? || Find(entries, path[0].key).None? then None
        else ValueAt(Find(entries, path[0].key).value, path[1..])
      case Rec(fields) =>
        if !path[0].Of? || !path[0].key.Name? || Private(path[0].key.name) || Find(fields, path[0].key.name).None? then None
        else ValueAt(Find(fields, path[0].key.name).value, path[1..])
      case _ => None
  }

  function ValueInConfig(cfg: seq<(string, Value)>, path: seq<Step>): Option<Value> {
    if |path| == 0 || !path[0].Of? || !path[0].key.Name? || Private(path[0].key.name) || Find(cfg, path[0].key.name).None? then None
    else ValueAt(Find(cfg, path[0].key.name).value, path[1..])
  }

  // ---------------------------------------------------------------- clear paths

  ghost predicate Clear(section: string, v: Value, path: seq<Step>) {
    forall n :: 0 <= n <= |path| ==> CredentialAt(section, v, path[..n]).None?
  }

  ghost predicate ClearInField(section: string, f: (string, Value), rest: seq<Step>) {
    forall n :: 0 <= n <= |rest| ==> CredentialInField(section, f, rest[..n]).None?
  }

  ghost predicate ClearInMap(name: string, m: Value, path: seq<Step>)
    requires m.Dict?
  {
    forall n :: 0 <= n <= |path| ==> CredentialInMap(name, m, path[..n]).None?
  }

  lemma Prefixes(path: seq<Step>, n: nat)
    requires n < |path|
    ensures path[..n + 1][1..] == path[1..][..n] && path[..n + 1][0] == path[0]
  {
  }

  lemma ClearItem(section: string, v: Value, path: seq<Step>)
    requires |path| > 0 && !path[0].Of? && Clear(section, v, path)
    requires (v.List? || v.Tuple? || v.SetOf?) && path[0].i < |v.items| && (v.SetOf? <==> path[0].Member?)
    ensures Clear(section, v.items[path[0].i], path[1..])
  {
    forall n | 0 <= n <= |path[1..]| ensures CredentialAt(section, v.items[path[0].i], path[1..][..n]).None? {
      Prefixes(path, n);
      assert CredentialAt(section, v, path[..n + 1]).None?;
    }
  }

  lemma ClearEntry(section: string, v: Value, path: seq<Step>)
    requires |path| > 0 && path[0].Of? && Clear(section, v, path)
    requires v.Dict? && Find(v.entries, path[0].key).Some?
    ensures !(path[0].key.Name? && IsCredentialField(section, path[0].key.name))
    ensures Clear(section, Find(v.entries, path[0].key).value, path[1..])
  {
    var x := Find(v.entries, path[0].key).value;
    assert CredentialAt(section, v, path[..1]).None? && path[..1][0] == path[0] && path[..1][1..] == [];
    assert CredentialUnder(section, path[0].key, x, path[..1][1..]).None?;
    forall n | 0 <= n <= |path[1..]| ensures CredentialAt(section, x, path[1..][..n]).None? {
      Prefixes(path, n);
      assert CredentialAt(section, v, path[..n + 1]).None?;
      assert CredentialUnder(section, path[0].key, x, path[..n + 1][1..]).None?;
    }
  }

  lemma ClearField(section: string, v: Value, path: seq<Step>)
    requires |path| > 0 && path[0].Of? && path[0].key.Name? && Clear(section, v, path)
    requires v.Rec? && !Private(path[0].key.name) && Find(v.fields, path[0].key.name).Some?
    ensures ClearInField(section, (path[0].key.name, Find(v.fields, path[0].key.name).value), path[1..])
  {
    var f := (path[0].key.name, Find(v.fields, path[0].key.name).value);
    forall n | 0 <= n <= |path[1..]| ensures CredentialInField(section, f, path[1..][..n]).None? {
      Prefixes(path, n);
      assert CredentialAt(section, v, path[..n + 1]).None?;
    }
  }

  lemma ClearUnder(section: string, f: (string, Value), rest: seq<Step>)
    requires ClearInField(section, f, rest)
    ensures if f.0 in MAP_FIELDS && f.1.Dict? then ClearInMap(f.0, f.1, rest)
            else !IsCredentialField(section, f.0) && Clear(section, f.1, rest)
  {
    if f.0 in MAP_FIELDS && f.1.Dict? {
      forall n | 0 <= n <= |rest| ensures CredentialInMap(f.0, f.1, rest[..n]).None? {
        assert CredentialInField(section, f, rest[..n]).None?;
      }
    } else {
      assert CredentialInField(section, f, rest[..0]).None?;
      assert CredentialUnder(section, Name(f.0), f.1, rest[..0]).None?;
      forall n | 0 <= n <= |rest| ensures CredentialAt(section, f.1, rest[..n]).None? {
        assert CredentialInField(section, f, rest[..n]).None?;
        assert CredentialUnder(section, Name(f.0), f.1, rest[..n]).None?;
      }
    }
  }

  lemma ClearMember(name: string, m: Value, path: seq<Step>)
    requires m.Dict? && |path| > 0 && path[0].Of? && ClearInMap(name, m, path)
    requires Find(m.entries, path[0].key).Some? && Find(m.entries, path[0].key).value.Rec?
    ensures Clear(name, Find(m.entries, path[0].key).value, path[1..])
  {
    var x := Find(m.entries, path[0].key).value;
    forall n | 0 <= n <= |path[1..]| ensures CredentialAt(name, x, path[1..][..n]).None? {
      Prefixes(path, n);
      assert CredentialInMap(name, m, path[..n + 1]).None?;
    }
  }

  // ---------------------------------------------------------------- clear leaves are shown

  ghost predicate Leaf(v: Option<Value>) {
    v.Some? && IsLeaf(v.value)
  }

  lemma {:induction false} ClearLeafIsShown(c: Setting, section: string, v: Value, path: seq<Step>)
    requires Leaf(ValueAt(v, path)) && Clear(section, v, path) && Redact(c, section, v).Success?
    ensures ShowsAt(Redact(c, section, v).value, path, Shown(c, ValueAt(v, path).value))
    decreases |path|, 1
  {
    if |path| > 0 {
      match v
      case List(items) => ItemIsShown(c, section, v, items, path);
      case Tuple(items) => ItemIsShown(c, section, v, items, path);
      case SetOf(items) =>
        ItemIsShown(c, section, v, items, path);
        assert Redact(c, section, items[path[0].i]).value in Redact(c, section, v).value.held;
      case Dict(_) => DictIsShown(c, section, v, path);
      case Rec(_) => RecordIsShown(c, section, v, path);
    }
  }

  lemma {:induction false} ItemIsShown(c: Setting, section: string, v: Value, items: seq<Value>, path: seq<Step>)
    requires |path| > 0 && !path[0].Of? && path[0].i < |items| && Leaf(ValueAt(items[path[0].i], path[1..]))
    requires (v.List? || v.Tuple? || v.SetOf?) && v.items == items && (v.SetOf? <==> path[0].Member?) && Clear(section, v, path)
    requires Collect(seq(|items|, i requires 0 <= i < |items| => Redact(c, section, items[i]))).Success?
    ensures var outs := Collect(seq(|items|, i requires 0 <= i < |items| => Redact(c, section, items[i]))).value;
            && |outs| == |items|
            && Redact(c, section, items[path[0].i]) == Success(outs[path[0].i])
            && ShowsAt(outs[path[0].i], path[1..], Shown(c, ValueAt(items[path[0].i], path[1..]).value))
    decreases |path|, 0
  {
    var rows := seq(|items|, i requires 0 <= i < |items| => Redact(c, section, items[i]));
    CollectAt(rows);
    assert rows[path[0].i].Success?;
    ClearItem(section, v, path);
    ClearLeafIsShown(c, section, items[path[0].i], path[1..]);
  }

  lemma {:induction false} DictIsShown(c: Setting, section: string, v: Value, path: seq<Step>)
    requires v.Dict? && |path| > 0 && Leaf(ValueAt(v, path)) && Clear(section, v, path) && Redact(c, section, v).Success?
    ensures ShowsAt(Redact(c, section, v).value, path, Shown(c, ValueAt(v, path).value))
    decreases |path|, 0
  {
    var key := path[0].key;
    var i := FindFinds(v.entries, key);
    var rows := seq(|v.entries|, i requires 0 <= i < |v.entries| => RedactEntry(c, section, v.entries[i]));
    CollectAt(rows);
    forall j | 0 <= j < |v.entries| ensures Collect(rows).value[j].0 == v.entries[j].0 {
      assert rows[j] == RedactEntry(c, section, v.entries[j]);
    }
    assert rows[i] == RedactEntry(c, section, v.entries[i]);
    LastIsFound(Collect(rows).value, key, i);
    ClearEntry(section, v, path);
    ClearLeafIsShown(c, section, v.entries[i].1, path[1..]);
  }

  lemma {:induction false} RecordIsShown(c: Setting, section: string, v: Value, path: seq<Step>)
    requires v.Rec? && |path| > 0 && Leaf(ValueAt(v, path)) && Clear(section, v, path) && RedactRecord(c, section, v).Success?
    ensures ShowsAt(RedactRecord(c, section, v).value, path, Shown(c, ValueAt(v, path).value))
    decreases |path|, 0
  {
    var i := FindFinds(v.fields, path[0].key.name);
    FieldIsFound(c, section, v, i);
    ClearField(section, v, path);
    FieldIsShown(c, section, v.fields[i], path[1..]);
  }

  lemma {:induction false} FieldIsShown(c: Setting, section: string, f: (string, Value), rest: seq<Step>)
    requires !Private(f.0) && RedactField(c, section, f).Success?
    requires Leaf(ValueAt(f.1, rest)) && ClearInField(section, f, rest)
    ensures var row := RedactField(c, section, f).value;
            |row| == 1 && ShowsAt(row[0].1, rest, Shown(c, ValueAt(f.1, rest).value))
    decreases |rest|, 3
  {
    ClearUnder(section, f, rest);
    if f.0 in MAP_FIELDS && f.1.Dict? {
      assert RedactField(c, section, f) == Alone(f.0, RedactMap(c, f.0, f.1));
      assert RedactMap(c, f.0, f.1).Success?;
      MapIsShown(c, f.0, f.1, rest);
    } else {
      assert RedactField(c, section, f) == Alone(f.0, Redact(c, section, f.1));
      assert Redact(c, section, f.1).Success?;
      ClearLeafIsShown(c, section, f.1, rest);
    }
  }

  lemma {:induction false} MapIsShown(c: Setting, name: string, m: Value, path: seq<Step>)
    requires m.Dict? && Leaf(ValueAt(m, path)) && ClearInMap(name, m, path) && RedactMap(c, name, m).Success?
    ensures ShowsAt(RedactMap(c, name, m).value, path, Shown(c, ValueAt(m, path).value))
    decreases |path|, 2
  {
    var i := FindFinds(m.entries, path[0].key);
    var rows := seq(|m.entries|, i requires 0 <= i < |m.entries| => RedactMember(c, name, m.entries[i]));
    CollectAt(rows);
    forall j | 0 <= j < |m.entries| ensures Collect(rows).value[j].0 == m.entries[j].0 {
      assert rows[j] == RedactMember(c, name, m.entries[j]);
    }
    assert rows[i] == RedactMember(c, name, m.entries[i]);
    LastIsFound(Collect(rows).value, path[0].key, i);
    // An entry of a credential map is a record, so the path goes on below it.
    assert RedactRecord(c, name, m.entries[i].1).Success?;
    assert m.entries[i].1.Rec? && ValueAt(m, path) == ValueAt(m.entries[i].1, path[1..]);
    ClearMember(name, m, path);
    RecordIsShown(c, name, m.entries[i].1, path[1..]);
  }

  // ---------------------------------------------------------------- nothing but a marker at or below a credential

  ghost predicate NoMembers(path: seq<Step>) {
    forall i :: 0 <= i < |path| ==> !path[i].Member?
  }

  /** Without set members on the way a path leads to one place: what is shown at its end is
      reached through what is shown on its way. */
  lemma {:induction false} ShownThrough(out: Out, path: seq<Step>, n: nat, mid: Out, x: Out)
    requires NoMembers(path) && n <= |path| && ShowsAt(out, path[..n], mid) && ShowsAt(out, path, x)
    ensures ShowsAt(mid, path[n..], x)
    decreases n
  {
    if n == 0 {
      assert path[0..] == path;
    } else {
      assert path[..n][1..] == path[1..][..n - 1] && path[..n][0] == path[0];
      assert path[1..][n - 1..] == path[n..];
      assert NoMembers(path[1..]) by {
        forall i | 0 <= i < |path[1..]| ensures !path[1..][i].Member? {
          assert path[1..][i] == path[i + 1];
        }
      }
      match out
      case OutList(items) => ShownThrough(items[path[0].i], path[1..], n - 1, mid, x);
      case OutDict(entries) => ShownThrough(Find(entries, path[0].key).value, path[1..], n - 1, mid, x);
    }
  }

  lemma OnlyTheMarker(c: Setting, out: Out, path: seq<Step>, n: nat, p: Position, x: Out)
    requires NoMembers(path) && n <= |path|
    requires ShowsAt(out, path[..n], Marker(c, p.section, p.name, p.value)) && ShowsAt(out, path, x)
    ensures x == Marker(c, p.section, p.name, p.value)
  {
    ShownThrough(out, path, n, Marker(c, p.section, p.name, p.value), x);
  }

  // ---------------------------------------------------------------- the configuration

  /** No prefix of the path ends at a credential position. */
  ghost predicate ClearInConfig(cfg: seq<(string, Value)>, path: seq<Step>) {
    forall n :: 0 <= n <= |path| ==> CredentialInConfig(cfg, path[..n]).None?
  }

  lemma ClearSection(cfg: seq<(string, Value)>, path: seq<Step>)
    requires ClearInConfig(cfg, path) && ValueInConfig(cfg, path).Some?
    ensures var f := (path[0].key.name, Find(cfg, path[0].key.name).value);
            if f.0 in MAP_FIELDS && f.1.Dict? then ClearInMap(f.0, f.1, path[1..]) else Clear(f.0, f.1, path[1..])
  {
    var f := (path[0].key.name, Find(cfg, path[0].key.name).value);
    forall n | 0 <= n <= |path[1..]|
      ensures f.0 in MAP_FIELDS && f.1.Dict? ==> CredentialInMap(f.0, f.1, path[1..][..n]).None?
      ensures !(f.0 in MAP_FIELDS && f.1.Dict?) ==> CredentialAt(f.0, f.1, path[1..][..n]).None?
    {
      Prefixes(path, n);
      assert CredentialInConfig(cfg, path[..n + 1]).None?;
    }
  }

  lemma SectionIsShown(c: Setting, f: (string, Value), rest: seq<Step>)
    requires !Private(f.0) && RedactSection(c, f).Success? && Leaf(ValueAt(f.1, rest))
    requires if f.0 in MAP_FIELDS && f.1.Dict? then ClearInMap(f.0, f.1, rest) else Clear(f.0, f.1, rest)
    ensures var row := RedactSection(c, f).value;
            |row| == 1 && ShowsAt(row[0].1, rest, Shown(c, ValueAt(f.1, rest).value))
  {
    if f.0 in MAP_FIELDS && f.1.Dict? {
      MapIsShown(c, f.0, f.1, rest);
    } else {
      ClearLeafIsShown(c, f.0, f.1, rest);
    }
  }

  lemma ClearConfigLeafIsShown(c: Setting, cfg: seq<(string, Value)>, path: seq<Step>)
    requires Leaf(ValueInConfig(cfg, path)) && ClearInConfig(cfg, path) && RedactConfig(c, cfg).Success?
    ensures ShowsAt(RedactConfig(c, cfg).value, path, Shown(c, ValueInConfig(cfg, path).value))
  {
    var i := FindFinds(cfg, path[0].key.name);
    SectionIsFound(c, cfg, i);
    ClearSection(cfg, path);
    SectionIsShown(c, cfg[i], path[1..]);
  }

  lemma CoveredShowsTheMarker(c: Setting, cfg: seq<(string, Value)>, path: seq<Step>, n: nat, x: Out)
    requires NoMembers(path) && n <= |path| && RedactConfig(c, cfg).Success?
    requires CredentialInConfig(cfg, path[..n]).Some?
    ensures ShowsAt(RedactConfig(c, cfg).value, path, x) ==> x == OutStr(REDACTED_SET) || x == OutStr(REDACTED_UNSET)
  {
    EveryCredentialIsMarked(c, cfg, path[..n]);
    if ShowsAt(RedactConfig(c, cfg).value, path, x) {
      OnlyTheMarker(c, RedactConfig(c, cfg).value, path, n, CredentialInConfig(cfg, path[..n]).value, x);
    }
  }

  /** A leaf of a configuration is shown in the clear, its text scrubbed, if and only if no credential
      position is on its path: nothing else is hidden, and at or below a credential there is only the
      marker. A leaf whose scrubbed text reads like a marker is no leaf to tell apart. */
  lemma LeafIsShownExactlyWhen(c: Setting, cfg: seq<(string, Value)>, path: seq<Step>)
    requires Leaf(ValueInConfig(cfg, path)) && NoMembers(path) && RedactConfig(c, cfg).Success?
    requires var shown := Shown(c, ValueInConfig(cfg, path).value); shown != OutStr(REDACTED_SET) && shown != OutStr(REDACTED_UNSET)
    ensures ShowsAt(RedactConfig(c, cfg).value, path, Shown(c, ValueInConfig(cfg, path).value)) <==> ClearInConfig(cfg, path)
  {
    if ClearInConfig(cfg, path) {
      ClearConfigLeafIsShown(c, cfg, path);
    } else {
      var n :| 0 <= n <= |path| && CredentialInConfig(cfg, path[..n]).Some?;
      CoveredShowsTheMarker(c, cfg, path, n, Shown(c, ValueInConfig(cfg, path).value));
    }
  }

  lemma TopLevelTextIsShown(c: Setting, name: string, s: string)
    requires !Private(name)
    ensures RedactConfig(c, [(name, Str(s))]) == Success(OutDict([(Name(name), OutStr(c.scrub(s)))]))
  {
    var cfg := [(name, Str(s))];
    var rows := seq(|cfg|, i requires 0 <= i < |cfg| => RedactSection(c, cfg[i]));
    var cell := [(Name(name), OutStr(c.scrub(s)))];
    assert rows == [] + [Success(cell)];
    CollectSnoc([], Success(cell));
    JoinedSnoc([], cell);
    assert [] + [cell] == [cell] && [] + cell == cell;
  }

  /** The names of the configuration's own fields are not classified: a text is shown there even
      under a name that is a credential in every section. */
  lemma TopLevelNameIsNotClassified(c: Setting, section: string, s: string)
    ensures IsCredentialField(section, "api_token")
    ensures RedactConfig(c, [("api_token", Str(s))]) == Success(OutDict([(Name("api_token"), OutStr(c.scrub(s)))]))
  {
    assert WORDS[4] == "token" && MatchesAt("api_token", 4, "token");
    assert Contains("api_token", WORDS[4]);
    TopLevelTextIsShown(c, "api_token", s);
  }
}

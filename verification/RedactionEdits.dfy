/** What one change to a configuration shows, and which of its leaves are shown in the clear. */
module RedactionEdits {
  import opened Redaction
  import opened Wrappers

  // ---------------------------------------------------------------- places in a tree

  /** Where the binding of a key stands. */
  function Place<K(==), T>(entries: seq<(K, T)>, key: K): Option<nat>
    decreases |entries|
  {
    if |entries| == 0 then None
    else if entries[|entries| - 1].0 == key then Some(|entries| - 1)
    else Place(entries[..|entries| - 1], key)
  }

  lemma {:induction false} PlaceIsLast<K, T>(entries: seq<(K, T)>, key: K)
    ensures Place(entries, key).Some? <==> Find(entries, key).Some?
    ensures Place(entries, key).Some? ==>
              var i := Place(entries, key).value;
              Last(entries, key, i) && Find(entries, key) == Some(entries[i].1)
    decreases |entries|
  {
    if |entries| > 0 && entries[|entries| - 1].0 != key {
      PlaceIsLast(entries[..|entries| - 1], key);
    }
  }

  /** The value with `w` at the end of a path. */
  function Updated(v: Value, path: seq<Step>, w: Value): Value
    decreases |path|
  {
    if |path| == 0 then w
    else match v
      case List(items) =>
        if path[0].At? && path[0].i < |items| then List(items[path[0].i := Updated(items[path[0].i], path[1..], w)]) else v
      case Tuple(items) =>
        if path[0].At? && path[0].i < |items| then Tuple(items[path[0].i := Updated(items[path[0].i], path[1..], w)]) else v
      case SetOf(items) =>
        if path[0].Member? && path[0].i < |items| then SetOf(items[path[0].i := Updated(items[path[0].i], path[1..], w)]) else v
      case Dict(entries) =>
        if !path[0].Of? then v
        else (match Place(entries, path[0].key)
              case Some(i) =>
                if i < |entries| then Dict(entries[i := (entries[i].0, Updated(entries[i].1, path[1..], w))]) else v
              case None => v)
      case Rec(fields) =>
        if !path[0].Of? || !path[0].key.Name? then v
        else (match Place(fields, path[0].key.name)
              case Some(i) =>
                if i < |fields| then Rec(fields[i := (fields[i].0, Updated(fields[i].1, path[1..], w))]) else v
              case None => v)
      case _ => v
  }

  // ---------------------------------------------------------------- one change among many results

  lemma {:induction false} CollectChanged<T>(rows: seq<Result<T, Error>>, i: nat, y: Result<T, Error>)
    requires Collect(rows).Success? && y.Success? && i < |rows|
    ensures |Collect(rows).value| == |rows|
    ensures Collect(rows[i := y]) == Success(Collect(rows).value[i := y.value])
    decreases |rows|
  {
    var n := |rows| - 1;
    CollectAt(rows);
    CollectAt(rows[..n]);
    var before := Collect(rows[..n]).value;
    assert rows == rows[..n] + [rows[n]];
    CollectSnoc(rows[..n], rows[n]);
    if i < n {
      CollectChanged(rows[..n], i, y);
      assert rows[i := y] == rows[..n][i := y] + [rows[n]];
      CollectSnoc(rows[..n][i := y], rows[n]);
      assert before[i := y.value] + [rows[n].value] == (before + [rows[n].value])[i := y.value];
    } else {
      assert rows[i := y] == rows[..n] + [y];
      CollectSnoc(rows[..n], y);
      assert before + [y.value] == (before + [rows[n].value])[i := y.value];
    }
  }

  lemma ChangedIsSame<T>(s: seq<T>, i: nat, y: T)
    requires i < |s|
    ensures s[i := y] == s <==> y == s[i]
    ensures multiset(s[i := y]) == multiset(s) <==> y == s[i]
  {
    assert s == s[..i] + [s[i]] + s[i + 1..];
    assert s[i := y] == s[..i] + [y] + s[i + 1..];
    if y != s[i] {
      assert multiset(s[i := y])[y] == multiset(s)[y] + 1;
    }
  }

  lemma {:induction false} JoinedAppend<T>(a: seq<seq<T>>, b: seq<seq<T>>)
    ensures Joined(a + b) == Joined(a) + Joined(b)
    decreases |b|
  {
    if |b| == 0 {
      assert a + b == a;
    } else {
      assert (a + b)[..|a + b| - 1] == a + b[..|b| - 1];
      JoinedAppend(a, b[..|b| - 1]);
    }
  }

  lemma JoinedChanged<T>(rows: seq<seq<T>>, i: nat, y: T)
    requires i < |rows| && |rows[i]| == 1
    ensures Joined(rows[i := [y]]) == Joined(rows) <==> y == rows[i][0]
  {
    var before, after, x := rows[..i], rows[i + 1..], rows[i][0];
    assert rows[i] == [x];
    assert rows == before + ([[x]] + after);
    assert rows[i := [y]] == before + ([[y]] + after);
    JoinedAppend(before, [[x]] + after);
    JoinedAppend(before, [[y]] + after);
    JoinedAppend([[x]], after);
    JoinedAppend([[y]], after);
    assert Joined([[x]]) == [x] && Joined([[y]]) == [y];
    assert Joined(rows)[|Joined(before)|] == x;
    assert Joined(rows[i := [y]])[|Joined(before)|] == y;
  }

  // ---------------------------------------------------------------- changing one credential

  ghost predicate SameStatus(c: Setting, p: Position, w: Value) {
    CredentialIsSet(c, p.section, p.name, p.value) == CredentialIsSet(c, p.section, p.name, w)
  }

  lemma MarkerTells(c: Setting, p: Position, w: Value)
    ensures Marker(c, p.section, p.name, w) == Marker(c, p.section, p.name, p.value) <==> SameStatus(c, p, w)
  {
    MarkersDiffer();
  }

  /** The result still succeeds, and is the same if and only if `same`. */
  ghost predicate Told<T>(before: Result<T, Error>, after: Result<T, Error>, same: bool) {
    before.Success? && after.Success? && (after == before <==> same)
  }

  lemma ItemChanged(c: Setting, section: string, items: seq<Value>, i: nat, x: Value, same: bool)
    requires i < |items| && Told(Redact(c, section, items[i]), Redact(c, section, x), same)
    requires Collect(seq(|items|, k requires 0 <= k < |items| => Redact(c, section, items[k]))).Success?
    ensures var before := Collect(seq(|items|, k requires 0 <= k < |items| => Redact(c, section, items[k])));
            var changed := items[i := x];
            var after := Collect(seq(|changed|, k requires 0 <= k < |changed| => Redact(c, section, changed[k])));
            && Told(before, after, same)
            && (multiset(after.value) == multiset(before.value) <==> same)
  {
    var changed := items[i := x];
    var rows := seq(|items|, k requires 0 <= k < |items| => Redact(c, section, items[k]));
    var rows' := seq(|changed|, k requires 0 <= k < |changed| => Redact(c, section, changed[k]));
    assert rows' == rows[i := Redact(c, section, x)];
    CollectAt(rows);
    assert rows[i] == Redact(c, section, items[i]);
    CollectChanged(rows, i, Redact(c, section, x));
    ChangedIsSame(Collect(rows).value, i, Redact(c, section, x).value);
  }

  lemma PairChanged(rows: seq<Result<(Key, Out), Error>>, i: nat, y: Result<(Key, Out), Error>, same: bool)
    requires i < |rows| && Collect(rows).Success? && Told(rows[i], y, same)
    ensures Told(AsDict(Collect(rows)), AsDict(Collect(rows[i := y])), same)
  {
    CollectAt(rows);
    CollectChanged(rows, i, y);
    ChangedIsSame(Collect(rows).value, i, y.value);
  }

  lemma EntryChanged(c: Setting, section: string, entries: seq<(Key, Value)>, i: nat, x: (Key, Value), same: bool)
    requires i < |entries| && Told(RedactEntry(c, section, entries[i]), RedactEntry(c, section, x), same)
    requires Redact(c, section, Dict(entries)).Success?
    ensures Told(Redact(c, section, Dict(entries)), Redact(c, section, Dict(entries[i := x])), same)
  {
    var changed := entries[i := x];
    var rows := seq(|entries|, k requires 0 <= k < |entries| => RedactEntry(c, section, entries[k]));
    var rows' := seq(|changed|, k requires 0 <= k < |changed| => RedactEntry(c, section, changed[k]));
    assert rows' == rows[i := RedactEntry(c, section, x)];
    assert rows[i] == RedactEntry(c, section, entries[i]);
    PairChanged(rows, i, RedactEntry(c, section, x), same);
  }

  lemma MemberChanged(c: Setting, name: string, entries: seq<(Key, Value)>, i: nat, x: (Key, Value), same: bool)
    requires i < |entries| && Told(RedactMember(c, name, entries[i]), RedactMember(c, name, x), same)
    requires RedactMap(c, name, Dict(entries)).Success?
    ensures Told(RedactMap(c, name, Dict(entries)), RedactMap(c, name, Dict(entries[i := x])), same)
  {
    var changed := entries[i := x];
    var rows := seq(|entries|, k requires 0 <= k < |entries| => RedactMember(c, name, entries[k]));
    var rows' := seq(|changed|, k requires 0 <= k < |changed| => RedactMember(c, name, changed[k]));
    assert rows' == rows[i := RedactMember(c, name, x)];
    assert rows[i] == RedactMember(c, name, entries[i]);
    PairChanged(rows, i, RedactMember(c, name, x), same);
  }

  /** One row among the rows of a record, or of the configuration itself. */
  lemma RowChanged(rows: seq<Result<seq<(Key, Out)>, Error>>, i: nat, y: Result<seq<(Key, Out)>, Error>, same: bool)
    requires i < |rows| && Collect(rows).Success? && Told(rows[i], y, same)
    requires |rows[i].value| == 1 && |y.value| == 1
    ensures Told(AsRecord(Collect(rows)), AsRecord(Collect(rows[i := y])), same)
  {
    CollectAt(rows);
    CollectChanged(rows, i, y);
    var cells := Collect(rows).value;
    assert y.value == [y.value[0]] && cells[i] == [cells[i][0]];
    JoinedChanged(cells, i, y.value[0]);
  }

  lemma {:induction false} ValueTells(c: Setting, section: string, v: Value, path: seq<Step>, w: Value)
    requires CredentialAt(section, v, path).Some? && Redact(c, section, v).Success?
    ensures Told(Redact(c, section, v), Redact(c, section, Updated(v, path, w)),
                 SameStatus(c, CredentialAt(section, v, path).value, w))
    decreases |path|, 1
  {
    var same := SameStatus(c, CredentialAt(section, v, path).value, w);
    match v
    case List(items) =>
      ItemTells(c, section, items, path, w);
      ItemChanged(c, section, items, path[0].i, Updated(items[path[0].i], path[1..], w), same);
    case Tuple(items) =>
      ItemTells(c, section, items, path, w);
      ItemChanged(c, section, items, path[0].i, Updated(items[path[0].i], path[1..], w), same);
    case SetOf(items) =>
      ItemTells(c, section, items, path, w);
      ItemChanged(c, section, items, path[0].i, Updated(items[path[0].i], path[1..], w), same);
    case Dict(entries) => DictTells(c, section, v, path, w);
    case Rec(_) => RecordTells(c, section, v, path, w);
  }

  lemma {:induction false} ItemTells(c: Setting, section: string, items: seq<Value>, path: seq<Step>, w: Value)
    requires |path| > 0 && !path[0].Of? && path[0].i < |items| && CredentialAt(section, items[path[0].i], path[1..]).Some?
    requires Collect(seq(|items|, k requires 0 <= k < |items| => Redact(c, section, items[k]))).Success?
    ensures Told(Redact(c, section, items[path[0].i]), Redact(c, section, Updated(items[path[0].i], path[1..], w)),
                 SameStatus(c, CredentialAt(section, items[path[0].i], path[1..]).value, w))
    decreases |path|, 0
  {
    var rows := seq(|items|, k requires 0 <= k < |items| => Redact(c, section, items[k]));
    CollectAt(rows);
    assert rows[path[0].i].Success?;
    ValueTells(c, section, items[path[0].i], path[1..], w);
  }

  lemma {:induction false} DictTells(c: Setting, section: string, v: Value, path: seq<Step>, w: Value)
    requires v.Dict? && CredentialAt(section, v, path).Some? && Redact(c, section, v).Success?
    ensures Told(Redact(c, section, v), Redact(c, section, Updated(v, path, w)),
                 SameStatus(c, CredentialAt(section, v, path).value, w))
    decreases |path|, 0
  {
    var key := path[0].key;
    PlaceIsLast(v.entries, key);
    var i := Place(v.entries, key).value;
    var p := CredentialAt(section, v, path).value;
    var rows := seq(|v.entries|, k requires 0 <= k < |v.entries| => RedactEntry(c, section, v.entries[k]));
    CollectAt(rows);
    assert rows[i] == RedactEntry(c, section, v.entries[i]);
    var x := (key, Updated(v.entries[i].1, path[1..], w));
    if key.Name? && IsCredentialField(section, key.name) {
      MarkerTells(c, p, w);
    } else {
      ValueTells(c, section, v.entries[i].1, path[1..], w);
    }
    EntryChanged(c, section, v.entries, i, x, SameStatus(c, p, w));
  }

  lemma {:induction false} RecordTells(c: Setting, section: string, v: Value, path: seq<Step>, w: Value)
    requires v.Rec? && CredentialAt(section, v, path).Some? && RedactRecord(c, section, v).Success?
    ensures Told(RedactRecord(c, section, v), RedactRecord(c, section, Updated(v, path, w)),
                 SameStatus(c, CredentialAt(section, v, path).value, w))
    ensures Updated(v, path, w).Rec?
    decreases |path|, 0
  {
    var name := path[0].key.name;
    PlaceIsLast(v.fields, name);
    var i := Place(v.fields, name).value;
    var f, p := v.fields[i], CredentialAt(section, v, path).value;
    var rows := seq(|v.fields|, k requires 0 <= k < |v.fields| => RedactField(c, section, v.fields[k]));
    CollectAt(rows);
    assert rows[i] == RedactField(c, section, f);
    FieldTells(c, section, f, path[1..], w);
    var x := (name, Updated(f.1, path[1..], w));
    var changed := v.fields[i := x];
    assert Updated(v, path, w) == Rec(changed);
    assert seq(|changed|, k requires 0 <= k < |changed| => RedactField(c, section, changed[k]))
        == rows[i := RedactField(c, section, x)];
    RowNames(c, section, f);
    RowNames(c, section, x);
    RowChanged(rows, i, RedactField(c, section, x), SameStatus(c, p, w));
  }

  lemma {:induction false} FieldTells(c: Setting, section: string, f: (string, Value), rest: seq<Step>, w: Value)
    requires !Private(f.0) && CredentialInField(section, f, rest).Some? && RedactField(c, section, f).Success?
    ensures Told(RedactField(c, section, f), RedactField(c, section, (f.0, Updated(f.1, rest, w))),
                 SameStatus(c, CredentialInField(section, f, rest).value, w))
    decreases |rest|, 3
  {
    if f.0 in MAP_FIELDS && f.1.Dict? {
      MapTells(c, f.0, f.1, rest, w);
    } else if IsCredentialField(section, f.0) {
      assert f.0 !in MAP_FIELDS;
      MarkerTells(c, CredentialInField(section, f, rest).value, w);
    } else {
      ValueTells(c, section, f.1, rest, w);
      UpdatedShape(section, f.1, rest, w);
    }
  }

  /** An update below the top does not turn a value into a dictionary. */
  lemma UpdatedShape(section: string, v: Value, path: seq<Step>, w: Value)
    requires CredentialAt(section, v, path).Some?
    ensures Updated(v, path, w).Dict? <==> v.Dict?
  {
  }

  lemma {:induction false} MapTells(c: Setting, name: string, m: Value, path: seq<Step>, w: Value)
    requires m.Dict? && CredentialInMap(name, m, path).Some? && RedactMap(c, name, m).Success?
    ensures Updated(m, path, w).Dict?
    ensures Told(RedactMap(c, name, m), RedactMap(c, name, Updated(m, path, w)),
                 SameStatus(c, CredentialInMap(name, m, path).value, w))
    decreases |path|, 2
  {
    PlaceIsLast(m.entries, path[0].key);
    var i := Place(m.entries, path[0].key).value;
    var e := m.entries[i];
    var rows := seq(|m.entries|, k requires 0 <= k < |m.entries| => RedactMember(c, name, m.entries[k]));
    CollectAt(rows);
    assert rows[i] == RedactMember(c, name, e);
    RecordTells(c, name, e.1, path[1..], w);
    MemberChanged(c, name, m.entries, i, (e.0, Updated(e.1, path[1..], w)), SameStatus(c, CredentialInMap(name, m, path).value, w));
  }

  function UpdatedConfig(cfg: seq<(string, Value)>, path: seq<Step>, w: Value): seq<(string, Value)> {
    if |path| == 0 || !path[0].Of? || !path[0].key.Name? then cfg
    else match Place(cfg, path[0].key.name)
      case Some(i) => if i < |cfg| then cfg[i := (cfg[i].0, Updated(cfg[i].1, path[1..], w))] else cfg
      case None => cfg
  }

  lemma SectionTells(c: Setting, f: (string, Value), path: seq<Step>, w: Value)
    requires |path| > 0 && !Private(f.0) && RedactSection(c, f).Success?
    requires CredentialInSection(f, path[1..]).Some?
    ensures Told(RedactSection(c, f), RedactSection(c, (f.0, Updated(f.1, path[1..], w))),
                 SameStatus(c, CredentialInSection(f, path[1..]).value, w))
  {
    if f.0 in MAP_FIELDS && f.1.Dict? {
      MapTells(c, f.0, f.1, path[1..], w);
    } else {
      ValueTells(c, f.0, f.1, path[1..], w);
      UpdatedShape(f.0, f.1, path[1..], w);
    }
  }

  function CredentialInSection(f: (string, Value), rest: seq<Step>): Option<Position> {
    if f.0 in MAP_FIELDS && f.1.Dict? then CredentialInMap(f.0, f.1, rest) else CredentialAt(f.0, f.1, rest)
  }

  /** Replacing the credential at any position of a configuration, at any nesting, changes the
      redacted tree if and only if it changes whether the credential is set. */
  lemma ChangedCredentialShows(c: Setting, cfg: seq<(string, Value)>, path: seq<Step>, w: Value)
    requires CredentialInConfig(cfg, path).Some? && RedactConfig(c, cfg).Success?
    ensures var p := CredentialInConfig(cfg, path).value;
            && RedactConfig(c, UpdatedConfig(cfg, path, w)).Success?
            && (RedactConfig(c, UpdatedConfig(cfg, path, w)) == RedactConfig(c, cfg) <==>
                  CredentialIsSet(c, p.section, p.name, p.value) == CredentialIsSet(c, p.section, p.name, w))
  {
    var name := path[0].key.name;
    PlaceIsLast(cfg, name);
    var i := Place(cfg, name).value;
    var f, p := cfg[i], CredentialInConfig(cfg, path).value;
    var rows := seq(|cfg|, k requires 0 <= k < |cfg| => RedactSection(c, cfg[k]));
    CollectAt(rows);
    assert rows[i] == RedactSection(c, f);
    assert CredentialInSection(f, path[1..]) == Some(p);
    SectionTells(c, f, path, w);
    var x := (name, Updated(f.1, path[1..], w));
    var changed := cfg[i := x];
    assert UpdatedConfig(cfg, path, w) == changed;
    assert seq(|changed|, k requires 0 <= k < |changed| => RedactSection(c, changed[k])) == rows[i := RedactSection(c, x)];
    SectionRowNames(c, f);
    SectionRowNames(c, x);
    RowChanged(rows, i, RedactSection(c, x), SameStatus(c, p, w));
  }

  // ---------------------------------------------------------------- edits that do not show

  lemma ItemsAlikeBut(c: Setting, section: string, items: seq<Value>, i: nat, x: Value)
    requires i < |items| && Alike(c, section, items[i], x)
    ensures AlikeItems(c, section, items, items[i := x])
  {
    forall k | 0 <= k < |items| ensures Alike(c, section, items[k], items[i := x][k]) {
      AlikeItself(c, section, items[k]);
    }
  }

  lemma EntriesAlikeBut(c: Setting, section: string, entries: seq<(Key, Value)>, i: nat, x: (Key, Value))
    requires i < |entries| && AlikeEntry(c, section, entries[i], x)
    ensures Alike(c, section, Dict(entries), Dict(entries[i := x]))
  {
    forall k | 0 <= k < |entries| ensures AlikeEntry(c, section, entries[k], entries[i := x][k]) {
      EntryAlikeItself(c, section, entries[k]);
    }
  }

  lemma FieldsAlikeBut(c: Setting, section: string, fields: seq<(string, Value)>, i: nat, x: (string, Value))
    requires i < |fields| && AlikeField(c, section, fields[i], x)
    ensures AlikeRecord(c, section, Rec(fields), Rec(fields[i := x]))
  {
    forall k | 0 <= k < |fields| ensures AlikeField(c, section, fields[k], fields[i := x][k]) {
      FieldAlikeItself(c, section, fields[k]);
    }
  }

  lemma MembersAlikeBut(c: Setting, name: string, entries: seq<(Key, Value)>, i: nat, x: (Key, Value))
    requires i < |entries| && AlikeMember(c, name, entries[i], x)
    ensures AlikeMap(c, name, Dict(entries), Dict(entries[i := x]))
  {
    forall k | 0 <= k < |entries| ensures AlikeMember(c, name, entries[k], entries[i := x][k]) {
      MemberAlikeItself(c, name, entries[k]);
    }
  }

  lemma {:induction false} UpdatedAlike(c: Setting, section: string, v: Value, path: seq<Step>, w: Value)
    requires CredentialAt(section, v, path).Some? && SameStatus(c, CredentialAt(section, v, path).value, w)
    ensures Alike(c, section, v, Updated(v, path, w))
    decreases |path|, 1
  {
    match v
    case List(items) =>
      UpdatedAlike(c, section, items[path[0].i], path[1..], w);
      ItemsAlikeBut(c, section, items, path[0].i, Updated(items[path[0].i], path[1..], w));
    case Tuple(items) =>
      UpdatedAlike(c, section, items[path[0].i], path[1..], w);
      ItemsAlikeBut(c, section, items, path[0].i, Updated(items[path[0].i], path[1..], w));
    case SetOf(items) =>
      UpdatedAlike(c, section, items[path[0].i], path[1..], w);
      ItemsAlikeBut(c, section, items, path[0].i, Updated(items[path[0].i], path[1..], w));
      assert multiset(items[path[0].i := Updated(items[path[0].i], path[1..], w)]) == multiset(Updated(v, path, w).items);
    case Dict(entries) => UpdatedDictAlike(c, section, v, path, w);
    case Rec(_) => UpdatedRecordAlike(c, section, v, path, w);
  }

  lemma {:induction false} UpdatedDictAlike(c: Setting, section: string, v: Value, path: seq<Step>, w: Value)
    requires v.Dict? && CredentialAt(section, v, path).Some? && SameStatus(c, CredentialAt(section, v, path).value, w)
    ensures Alike(c, section, v, Updated(v, path, w))
    decreases |path|, 0
  {
    var key := path[0].key;
    PlaceIsLast(v.entries, key);
    var i := Place(v.entries, key).value;
    if !(key.Name? && IsCredentialField(section, key.name)) {
      UpdatedAlike(c, section, v.entries[i].1, path[1..], w);
    }
    EntriesAlikeBut(c, section, v.entries, i, (key, Updated(v.entries[i].1, path[1..], w)));
  }

  lemma {:induction false} UpdatedRecordAlike(c: Setting, section: string, v: Value, path: seq<Step>, w: Value)
    requires v.Rec? && CredentialAt(section, v, path).Some? && SameStatus(c, CredentialAt(section, v, path).value, w)
    ensures AlikeRecord(c, section, v, Updated(v, path, w))
    decreases |path|, 0
  {
    var name := path[0].key.name;
    PlaceIsLast(v.fields, name);
    var i := Place(v.fields, name).value;
    UpdatedFieldAlike(c, section, v.fields[i], path[1..], w);
    FieldsAlikeBut(c, section, v.fields, i, (name, Updated(v.fields[i].1, path[1..], w)));
  }

  lemma {:induction false} UpdatedFieldAlike(c: Setting, section: string, f: (string, Value), rest: seq<Step>, w: Value)
    requires CredentialInField(section, f, rest).Some? && SameStatus(c, CredentialInField(section, f, rest).value, w)
    ensures AlikeField(c, section, f, (f.0, Updated(f.1, rest, w)))
    decreases |rest|, 3
  {
    if f.0 in MAP_FIELDS && f.1.Dict? {
      UpdatedMapAlike(c, f.0, f.1, rest, w);
    } else if !IsCredentialField(section, f.0) {
      UpdatedAlike(c, section, f.1, rest, w);
    }
  }

  lemma {:induction false} UpdatedMapAlike(c: Setting, name: string, m: Value, path: seq<Step>, w: Value)
    requires m.Dict? && CredentialInMap(name, m, path).Some? && SameStatus(c, CredentialInMap(name, m, path).value, w)
    ensures AlikeMap(c, name, m, Updated(m, path, w))
    decreases |path|, 2
  {
    PlaceIsLast(m.entries, path[0].key);
    var i := Place(m.entries, path[0].key).value;
    var e := m.entries[i];
    UpdatedRecordAlike(c, name, e.1, path[1..], w);
    MembersAlikeBut(c, name, m.entries, i, (e.0, Updated(e.1, path[1..], w)));
  }

  lemma SectionAlikeItself(c: Setting, f: (string, Value))
    ensures AlikeSection(c, f, f)
  {
    AlikeItself(c, f.0, f.1);
    if f.0 in MAP_FIELDS && f.1.Dict? {
      MapAlikeItself(c, f.0, f.1);
    }
  }

  lemma UpdatedSectionAlike(c: Setting, f: (string, Value), rest: seq<Step>, w: Value)
    requires CredentialInSection(f, rest).Some? && SameStatus(c, CredentialInSection(f, rest).value, w)
    ensures AlikeSection(c, f, (f.0, Updated(f.1, rest, w)))
  {
    if f.0 in MAP_FIELDS && f.1.Dict? {
      UpdatedMapAlike(c, f.0, f.1, rest, w);
    } else {
      UpdatedAlike(c, f.0, f.1, rest, w);
    }
  }

  /** An edit of one credential that leaves its status is one that does not interfere: the edited
      configuration is alike, and redacts to the identical tree or fails just as before. */
  lemma UpdatedIsAlike(c: Setting, cfg: seq<(string, Value)>, path: seq<Step>, w: Value)
    requires CredentialInConfig(cfg, path).Some? && SameStatus(c, CredentialInConfig(cfg, path).value, w)
    ensures AlikeConfig(c, cfg, UpdatedConfig(cfg, path, w))
    ensures RedactConfig(c, UpdatedConfig(cfg, path, w)) == RedactConfig(c, cfg)
  {
    var name := path[0].key.name;
    PlaceIsLast(cfg, name);
    var i := Place(cfg, name).value;
    var x := (name, Updated(cfg[i].1, path[1..], w));
    assert CredentialInSection(cfg[i], path[1..]) == CredentialInConfig(cfg, path);
    UpdatedSectionAlike(c, cfg[i], path[1..], w);
    forall k | 0 <= k < |cfg| ensures AlikeSection(c, cfg[k], cfg[i := x][k]) {
      SectionAlikeItself(c, cfg[k]);
    }
    NonInterference(c, cfg, UpdatedConfig(cfg, path, w));
  }

  /** Where redaction succeeds, an edited credential leaves the configuration alike if and only if
      it keeps its status. */
  lemma EditIsAlikeExactlyWhen(c: Setting, cfg: seq<(string, Value)>, path: seq<Step>, w: Value)
    requires CredentialInConfig(cfg, path).Some? && RedactConfig(c, cfg).Success?
    ensures AlikeConfig(c, cfg, UpdatedConfig(cfg, path, w)) <==> SameStatus(c, CredentialInConfig(cfg, path).value, w)
  {
    if SameStatus(c, CredentialInConfig(cfg, path).value, w) {
      UpdatedIsAlike(c, cfg, path, w);
    } else if AlikeConfig(c, cfg, UpdatedConfig(cfg, path, w)) {
      NonInterference(c, cfg, UpdatedConfig(cfg, path, w));
      ChangedCredentialShows(c, cfg, path, w);
    }
  }
}

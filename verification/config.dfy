/**
 * The configuration document after it has been parsed: a missing `backup`
 * list becomes empty and every entry of it gets each of its eight settings,
 * a default where it has none. A document the defaulting cannot walk (not
 * an object, a `backup` that cannot be iterated, an entry that is not an
 * object) makes the reader log the error and return nothing.
 *
 * Also the duplicate check the command line runs before adding an entry.
 */
module Config {
  import opened Wrappers
  import opened Paths

  /**
   * A parsed JSON value. Arrays are objects too and can carry named
   * properties besides their items; a parsed array has none, but the
   * defaulting may add one.
   */
  datatype Json =
    | JNull
    | JBool(b: bool)
    | JNum(n: int)
    | JStr(s: string)
    | JArr(items: seq<Json>, props: map<string, Json>)
    | JObj(fields: map<string, Json>)

  datatype ConfigError =
    | NotAnObject              // the document is not an object: testing for `backup` throws
    | BackupNotIterable        // `backup` is neither an array nor a string
    | EntryNotAnObject(i: nat) // the `i`-th entry is not an object: testing for a setting throws

  predicate IsObject(v: Json) {
    v.JArr? || v.JObj?
  }

  /** The named properties of an object (for the names looked up here, never an index or `length`). */
  function Props(v: Json): map<string, Json>
    requires IsObject(v)
  {
    if v.JArr? then v.props else v.fields
  }

  function WithProps(v: Json, m: map<string, Json>): (r: Json)
    requires IsObject(v)
    ensures IsObject(r) && Props(r) == m
  {
    if v.JArr? then JArr(v.items, m) else JObj(m)
  }

  /** The eight settings of an entry and their defaults, in the order the reader fills them in. */
  const Defaults: seq<(string, Json)> := [
    ("name", JStr("")),
    ("description", JStr("")),
    ("compression", JStr("")),
    ("subfolder", JStr("")),
    ("match", JStr("")),
    ("rename", JStr("")),
    ("active", JBool(true)),
    ("keep", JNum(0))
  ]

  predicate DistinctKeys(ds: seq<(string, Json)>) {
    forall i, j :: 0 <= i < j < |ds| ==> ds[i].0 != ds[j].0
  }

  predicate HasKeys(m: map<string, Json>, ds: seq<(string, Json)>) {
    forall i :: 0 <= i < |ds| ==> ds[i].0 in m
  }

  /** Each setting missing from `m` gets its default; the settings present are left alone. */
  function FillDefaults(m: map<string, Json>, ds: seq<(string, Json)>): (r: map<string, Json>)
    ensures forall k :: k in m ==> k in r && r[k] == m[k]
    ensures HasKeys(r, ds)
    ensures forall k :: k in r && k !in m ==> exists i :: 0 <= i < |ds| && ds[i] == (k, r[k])
    decreases |ds|
  {
    if |ds| == 0 then m
    else
      var m1 := if ds[0].0 in m then m else m[ds[0].0 := ds[0].1];
      var r := FillDefaults(m1, ds[1..]);
      assert forall i :: 1 <= i < |ds| ==> ds[i] == ds[1..][i - 1];
      assert forall k :: k in r && k !in m1 ==> exists i :: 0 <= i < |ds| && ds[i] == (k, r[k]) by {
        forall k | k in r && k !in m1 ensures exists i :: 0 <= i < |ds| && ds[i] == (k, r[k]) {
          var i :| 0 <= i < |ds[1..]| && ds[1..][i] == (k, r[k]);
          assert ds[i + 1] == (k, r[k]);
        }
      }
      r
  }

  /** The defaulted entries, or the index of the first entry that is not an object. */
  function DefaultEntries(items: seq<Json>, from: nat, ds: seq<(string, Json)>): (r: Result<seq<Json>, nat>)
    ensures r.Success? ==> |r.value| == |items|
    decreases |items|
  {
    if |items| == 0 then Success([])
    else if !IsObject(items[0]) then Failure(from)
    else
      match DefaultEntries(items[1..], from + 1, ds)
      case Failure(i) => Failure(i)
      case Success(rest) => Success([WithProps(items[0], FillDefaults(Props(items[0]), ds))] + rest)
  }

  /** The reader's defaulting of a parsed document. */
  function ReadConfig(config: Json): Result<Json, ConfigError> {
    if !IsObject(config) then Failure(NotAnObject)
    else
      var props := Props(config);
      var backup := if "backup" in props then props["backup"] else JArr([], map[]);
      match backup
      case JArr(items, extra) =>
        (match DefaultEntries(items, 0, Defaults)
         case Failure(i) => Failure(EntryNotAnObject(i))
         case Success(entries) => Success(WithProps(config, props["backup" := JArr(entries, extra)])))
      case JStr(s) =>
        // Iterating a string yields its characters; the first one is not an object.
        if s == "" then Success(WithProps(config, props["backup" := backup])) else Failure(EntryNotAnObject(0))
      case _ => Failure(BackupNotIterable)
  }

  // ---------------------------------------------------------------------
  // Properties
  // ---------------------------------------------------------------------

  lemma DefaultsDistinct()
    ensures DistinctKeys(Defaults)
  {
  }

  /** A missing setting gets exactly its default (the settings are distinct). */
  lemma {:induction false} FillMissing(m: map<string, Json>, ds: seq<(string, Json)>, i: nat)
    requires DistinctKeys(ds) && i < |ds| && ds[i].0 !in m
    ensures FillDefaults(m, ds)[ds[i].0] == ds[i].1
    decreases |ds|
  {
    var m1 := if ds[0].0 in m then m else m[ds[0].0 := ds[0].1];
    if i > 0 {
      assert ds[1..][i - 1] == ds[i];
      FillMissing(m1, ds[1..], i - 1);
    }
  }

  /** What filling in defaults does: keeps every setting present, adds each missing one with its default, adds nothing else. */
  lemma FillSpec(m: map<string, Json>, ds: seq<(string, Json)>)
    requires DistinctKeys(ds)
    ensures var r := FillDefaults(m, ds);
      && HasKeys(r, ds)
      && (forall k :: k in m ==> r[k] == m[k])
      && (forall i :: 0 <= i < |ds| && ds[i].0 !in m ==> r[ds[i].0] == ds[i].1)
      && (forall k :: k in r ==> k in m || exists i :: 0 <= i < |ds| && ds[i].0 == k)
  {
    forall i | 0 <= i < |ds| && ds[i].0 !in m ensures FillDefaults(m, ds)[ds[i].0] == ds[i].1 {
      FillMissing(m, ds, i);
    }
  }

  /** An entry that already has every setting is left as it is. */
  lemma {:induction false} FillComplete(m: map<string, Json>, ds: seq<(string, Json)>)
    requires HasKeys(m, ds)
    ensures FillDefaults(m, ds) == m
  {
    if |ds| > 0 {
      assert forall i :: 0 <= i < |ds[1..]| ==> ds[1..][i] == ds[i + 1];
      FillComplete(m, ds[1..]);
    }
  }

  /** Every defaulted entry is its object with the settings filled in; the entries and their order are kept. */
  lemma {:induction false} DefaultEntriesShape(items: seq<Json>, from: nat, ds: seq<(string, Json)>)
    requires DefaultEntries(items, from, ds).Success?
    ensures var r := DefaultEntries(items, from, ds).value;
      forall i :: 0 <= i < |items| ==>
        IsObject(items[i]) && IsObject(r[i]) && Props(r[i]) == FillDefaults(Props(items[i]), ds)
        && (items[i].JArr? <==> r[i].JArr?) && (items[i].JArr? ==> r[i].items == items[i].items)
  {
    if |items| > 0 {
      DefaultEntriesShape(items[1..], from + 1, ds);
      var r := DefaultEntries(items, from, ds).value;
      assert forall i :: 1 <= i < |items| ==> items[i] == items[1..][i - 1] && r[i] == DefaultEntries(items[1..], from + 1, ds).value[i - 1];
    }
  }

  /** The defaulting fails exactly at the first entry that is not an object. */
  lemma {:induction false} DefaultEntriesFailure(items: seq<Json>, from: nat, ds: seq<(string, Json)>)
    ensures DefaultEntries(items, from, ds).Failure? <==> exists i :: 0 <= i < |items| && !IsObject(items[i])
    ensures DefaultEntries(items, from, ds).Failure? ==>
      var i := DefaultEntries(items, from, ds).error - from;
      0 <= i < |items| && !IsObject(items[i]) && forall j :: 0 <= j < i ==> IsObject(items[j])
  {
    if |items| > 0 {
      DefaultEntriesFailure(items[1..], from + 1, ds);
      assert forall i :: 1 <= i < |items| ==> items[i] == items[1..][i - 1];
      if IsObject(items[0]) && DefaultEntries(items, from, ds).Failure? {
        var i := DefaultEntries(items, from, ds).error - from;
        assert DefaultEntries(items[1..], from + 1, ds).error - (from + 1) == i - 1;
      }
    }
  }

  /** Entries that already have all settings come back unchanged. */
  lemma {:induction false} DefaultEntriesComplete(items: seq<Json>, from: nat, ds: seq<(string, Json)>)
    requires forall i :: 0 <= i < |items| ==> IsObject(items[i]) && HasKeys(Props(items[i]), ds)
    ensures DefaultEntries(items, from, ds) == Success(items)
  {
    if |items| > 0 {
      assert forall i :: 0 <= i < |items[1..]| ==> items[1..][i] == items[i + 1];
      DefaultEntriesComplete(items[1..], from + 1, ds);
      FillComplete(Props(items[0]), ds);
      assert WithProps(items[0], Props(items[0])) == items[0];
      assert [items[0]] + items[1..] == items;
    }
  }

  /**
   * The document is accepted exactly when it is an object whose `backup`
   * is missing, the empty string, or an array of objects; the error names
   * the first thing that cannot be walked.
   */
  lemma ReadConfigAccepts(config: Json)
    ensures var r := ReadConfig(config);
      && (!IsObject(config) ==> r == Failure(NotAnObject))
      && (IsObject(config) && "backup" !in Props(config) ==>
            r == Success(WithProps(config, Props(config)["backup" := JArr([], map[])])))
      && (IsObject(config) && "backup" in Props(config) ==>
            var b := Props(config)["backup"];
            && (r.Success? <==> (b.JArr? && forall i :: 0 <= i < |b.items| ==> IsObject(b.items[i])) || b == JStr(""))
            && (!b.JArr? && !b.JStr? ==> r == Failure(BackupNotIterable)))
  {
    if IsObject(config) && "backup" in Props(config) && Props(config)["backup"].JArr? {
      DefaultEntriesFailure(Props(config)["backup"].items, 0, Defaults);
    }
  }

  /**
   * Entry by entry, `after` is `before` with the settings filled in: all of
   * them present, those already there unchanged, the missing ones at their
   * defaults.
   */
  predicate Filled(before: seq<Json>, after: seq<Json>, ds: seq<(string, Json)>) {
    && |after| == |before|
    && forall i :: 0 <= i < |after| ==>
         && IsObject(before[i]) && IsObject(after[i]) && HasKeys(Props(after[i]), ds)
         && (forall k :: k in Props(before[i]) ==> k in Props(after[i]) && Props(after[i])[k] == Props(before[i])[k])
         && (forall j :: 0 <= j < |ds| && ds[j].0 !in Props(before[i]) ==> Props(after[i])[ds[j].0] == ds[j].1)
  }

  lemma DefaultEntriesFilled(items: seq<Json>, from: nat, ds: seq<(string, Json)>)
    requires DistinctKeys(ds) && DefaultEntries(items, from, ds).Success?
    ensures Filled(items, DefaultEntries(items, from, ds).value, ds)
  {
    DefaultEntriesShape(items, from, ds);
    var after := DefaultEntries(items, from, ds).value;
    forall i | 0 <= i < |after|
      ensures forall j :: 0 <= j < |ds| && ds[j].0 !in Props(items[i]) ==> Props(after[i])[ds[j].0] == ds[j].1
    {
      FillSpec(Props(items[i]), ds);
    }
  }

  /**
   * After defaulting, the document has a `backup`; every other top-level
   * setting is unchanged; when it is a list, each of its entries has all
   * eight settings, its own settings unchanged and the missing ones at
   * their defaults.
   */
  lemma ReadConfigFills(config: Json)
    requires ReadConfig(config).Success?
    ensures var r := ReadConfig(config).value;
      && IsObject(r) && "backup" in Props(r)
      && (forall k :: k in Props(config) && k != "backup" ==> k in Props(r) && Props(r)[k] == Props(config)[k])
      && (Props(r)["backup"].JArr? ==>
            Filled(if "backup" in Props(config) then Props(config)["backup"].items else [], Props(r)["backup"].items, Defaults))
  {
    var props := Props(config);
    if "backup" in props && props["backup"].JArr? {
      DefaultsDistinct();
      DefaultEntriesFilled(props["backup"].items, 0, Defaults);
    }
  }

  /** Defaulting an already defaulted document changes nothing. */
  lemma ReadConfigIdempotent(config: Json)
    requires ReadConfig(config).Success?
    ensures ReadConfig(ReadConfig(config).value) == ReadConfig(config)
  {
    var r := ReadConfig(config).value;
    ReadConfigFills(config);
    var b := Props(r)["backup"];
    if b.JArr? {
      DefaultEntriesComplete(b.items, 0, Defaults);
      assert Props(r)["backup" := JArr(b.items, b.props)] == Props(r);
      assert WithProps(r, Props(r)) == r;
    } else {
      assert Props(r)["backup" := b] == Props(r);
      assert WithProps(r, Props(r)) == r;
    }
  }

  // ---------------------------------------------------------------------
  // Duplicate check
  // ---------------------------------------------------------------------

  /** The entry's `from` is the given text. */
  predicate Names(v: Json, p: string) {
    IsObject(v) && "from" in Props(v) && Props(v)["from"] == JStr(p)
  }

  /** The entry is listed under the normalized local path or the absolute path. */
  predicate Listed(v: Json, local: string, abs: string, ops: PathOps) {
    Names(v, ops.normalize(local)) || Names(v, abs)
  }

  /**
   * Whether some entry of the `backup` list already backs up the path.
   * Entries are examined in order until one is listed; reading `from` of a
   * `null` entry before that throws, any other non-object has no `from`.
   */
  method IsFileOrFolderInBackup(backup: seq<Json>, local: string, abs: string, ops: PathOps) returns (r: Result<bool, nat>)
    ensures r == Success(true) <==>
      exists i :: 0 <= i < |backup| && Listed(backup[i], local, abs, ops) && forall j :: 0 <= j < i ==> backup[j] != JNull
    ensures r.Failure? <==>
      exists i :: 0 <= i < |backup| && backup[i] == JNull && forall j :: 0 <= j < i ==> !Listed(backup[j], local, abs, ops)
    ensures r.Failure? ==> r.error < |backup| && backup[r.error] == JNull
  {
    var i := 0;
    while i < |backup|
      invariant 0 <= i <= |backup|
      invariant forall j :: 0 <= j < i ==> backup[j] != JNull && !Listed(backup[j], local, abs, ops)
    {
      if backup[i] == JNull {
        return Failure(i);
      }
      if Listed(backup[i], local, abs, ops) {
        return Success(true);
      }
      i := i + 1;
    }
    return Success(false);
  }
}

/** Stage 4: schema validation in two passes. The whole catalog is validated
    first; only when that fails is every entry validated on its own against
    the item schema, to produce one localized record per failing entry.

    The JSON-schema engine is a parameter: a `Validator` says, for an
    instance and a schema, whether validation returns, raises a validation
    error (with the error's path and text) or rejects the schema itself. */
module SchemaCheck {
  import opened JsonValues
  import opened Text
  import opened FormatCheck

  /** One step of a validation error's path: an object key or a list index. */
  datatype PathElem = Key(name: string) | Index(pos: nat)

  /** The outcome of `jsonschema.validate(instance, schema)`. */
  datatype Verdict =
    | Conforms
    | Violation(path: seq<PathElem>, message: string)  // ValidationError
    | InvalidSchema                                    // SchemaError, not caught

  type Validator = (Json, Json) -> Verdict

  /** One localized schema error: `{id, name, error, path}`. */
  datatype SchemaRecord = SchemaRecord(id: Json, name: Json, error: string, path: string)

  /** `str(p)` for one path element. */
  function PathPart(p: PathElem): string {
    match p
    case Key(k) => k
    case Index(n) => NatToString(n)
  }

  function PathParts(path: seq<PathElem>): seq<string> {
    seq(|path|, k requires 0 <= k < |path| => PathPart(path[k]))
  }

  /** `".".join(str(p) for p in path)`. */
  function PathString(path: seq<PathElem>): string {
    Join(PathParts(path))
  }

  /** The id a record gets for entry `i` when the entry has no `id` key. */
  function DefaultId(i: nat): string {
    "entry-" + NatToString(i)
  }

  /** The record for entry `i` of the catalog that failed with `path` and `message`. */
  function RecordFor(entry: Entry, i: nat, path: seq<PathElem>, message: string): (r: SchemaRecord)
    ensures r.id == if "id" in entry then entry["id"] else JStr(DefaultId(i))
    ensures r.name == if "name" in entry then entry["name"] else JStr("unknown")
    ensures r.error == message
    ensures r.path == PathString(path)
    ensures path == [] ==> r.path == ""
  {
    SchemaRecord(
      Get(entry, "id", JStr(DefaultId(i))),
      Get(entry, "name", JStr("unknown")),
      message,
      PathString(path))
  }

  /** The second pass over the first `n` entries. `schema["items"]` is
      looked up afresh for every entry, so it raises only once an entry is
      reached. */
  function PerEntryErrors(config: seq<Entry>, schema: Json, validate: Validator, n: nat)
    : (r: Result<seq<SchemaRecord>>)
    requires n <= |config|
    ensures r.Ok? ==> |r.value| <= n
  {
    if n == 0 then Ok([])
    else
      match PerEntryErrors(config, schema, validate, n - 1)
      case Err(e) => Err(e)
      case Ok(errors) =>
        match Subscript(schema, "items")
        case Err(e) => Err(e)
        case Ok(items) =>
          match validate(JObject(config[n - 1]), items)
          case Conforms => Ok(errors)
          case InvalidSchema => Err(SchemaError)
          case Violation(path, message) => Ok(errors + [RecordFor(config[n - 1], n - 1, path, message)])
  }

  /** `validate_schema`: the list of schema errors, or the exception that
      escapes it. */
  function SchemaErrors(config: seq<Entry>, schema: Json, validate: Validator)
    : (r: Result<seq<SchemaRecord>>)
    ensures r.Ok? ==> |r.value| <= |config|
  {
    match validate(CatalogJson(config), schema)
    case Conforms => Ok([])
    case InvalidSchema => Err(SchemaError)
    case Violation(_, _) => PerEntryErrors(config, schema, validate, |config|)
  }

  /** Once the second pass has raised, it stays raised. */
  lemma {:induction false} PerEntryErrorPersists(config: seq<Entry>, schema: Json, validate: Validator, n: nat, m: nat)
    requires n <= m <= |config|
    requires PerEntryErrors(config, schema, validate, n).Err?
    ensures PerEntryErrors(config, schema, validate, m) == PerEntryErrors(config, schema, validate, n)
    decreases m
  {
    if n < m {
      PerEntryErrorPersists(config, schema, validate, n, m - 1);
    }
  }

  /** `validate_schema` as the loop it is. */
  method ValidateSchema(config: seq<Entry>, schema: Json, validate: Validator)
    returns (r: Result<seq<SchemaRecord>>)
    ensures r == SchemaErrors(config, schema, validate)
  {
    var whole := validate(CatalogJson(config), schema);
    if whole.Conforms? {
      return Ok([]);
    }
    if whole.InvalidSchema? {
      return Err(SchemaError);
    }
    var errors: seq<SchemaRecord> := [];
    for i := 0 to |config|
      invariant PerEntryErrors(config, schema, validate, i) == Ok(errors)
    {
      var items := Subscript(schema, "items");
      if items.Err? {
        PerEntryErrorPersists(config, schema, validate, i + 1, |config|);
        return Err(items.error);
      }
      var verdict := validate(JObject(config[i]), items.value);
      if verdict.InvalidSchema? {
        PerEntryErrorPersists(config, schema, validate, i + 1, |config|);
        return Err(SchemaError);
      }
      if verdict.Violation? {
        errors := errors + [RecordFor(config[i], i, verdict.path, verdict.message)];
      }
    }
    return Ok(errors);
  }

  /** The indices, in increasing order, of the first `n` entries that fail
      the item schema. */
  function FailingEntries(config: seq<Entry>, items: Json, validate: Validator, n: nat): (idx: seq<nat>)
    requires n <= |config|
    ensures forall k :: 0 <= k < |idx| ==> idx[k] < n && validate(JObject(config[idx[k]]), items).Violation?
    ensures forall i :: 0 <= i < n && validate(JObject(config[i]), items).Violation? ==> i in idx
    ensures forall j, k :: 0 <= j < k < |idx| ==> idx[j] < idx[k]
  {
    if n == 0 then []
    else
      FailingEntries(config, items, validate, n - 1)
      + (if validate(JObject(config[n - 1]), items).Violation? then [n - 1] else [])
  }

  /** The record for failing entry `i`. */
  function RecordAt(config: seq<Entry>, items: Json, validate: Validator, i: nat): SchemaRecord
    requires i < |config|
    requires validate(JObject(config[i]), items).Violation?
  {
    var v := validate(JObject(config[i]), items);
    RecordFor(config[i], i, v.path, v.message)
  }

  lemma {:induction false} PerEntryErrorsExact(config: seq<Entry>, schema: Json, validate: Validator, items: Json, n: nat)
    requires n <= |config|
    requires Subscript(schema, "items") == Ok(items)
    requires forall i :: 0 <= i < n ==> !validate(JObject(config[i]), items).InvalidSchema?
    ensures PerEntryErrors(config, schema, validate, n).Ok?
    ensures var errors := PerEntryErrors(config, schema, validate, n).value;
            var idx := FailingEntries(config, items, validate, n);
            |errors| == |idx| && forall k :: 0 <= k < |idx| ==> errors[k] == RecordAt(config, items, validate, idx[k])
  {
    if n > 0 {
      PerEntryErrorsExact(config, schema, validate, items, n - 1);
      var prev := PerEntryErrors(config, schema, validate, n - 1).value;
      var prevIdx := FailingEntries(config, items, validate, n - 1);
      var v := validate(JObject(config[n - 1]), items);
      if v.Violation? {
        var errors := prev + [RecordFor(config[n - 1], n - 1, v.path, v.message)];
        var idx := prevIdx + [n - 1];
        assert PerEntryErrors(config, schema, validate, n) == Ok(errors);
        assert FailingEntries(config, items, validate, n) == idx;
        forall k | 0 <= k < |idx|
          ensures errors[k] == RecordAt(config, items, validate, idx[k])
        {
          if k < |prevIdx| {
            assert errors[k] == prev[k] && idx[k] == prevIdx[k];
          }
        }
      } else {
        assert PerEntryErrors(config, schema, validate, n) == Ok(prev);
        assert FailingEntries(config, items, validate, n) == prevIdx;
      }
    }
  }

  /** When the whole catalog fails, there is one record per entry that fails
      the item schema, in entry order, and none for the entries that pass. */
  lemma SchemaErrorsExact(config: seq<Entry>, schema: Json, validate: Validator, items: Json)
    requires validate(CatalogJson(config), schema).Violation?
    requires Subscript(schema, "items") == Ok(items)
    requires forall i :: 0 <= i < |config| ==> !validate(JObject(config[i]), items).InvalidSchema?
    ensures SchemaErrors(config, schema, validate).Ok?
    ensures var errors := SchemaErrors(config, schema, validate).value;
            var idx := FailingEntries(config, items, validate, |config|);
            |errors| == |idx| && forall k :: 0 <= k < |idx| ==> errors[k] == RecordAt(config, items, validate, idx[k])
  {
    PerEntryErrorsExact(config, schema, validate, items, |config|);
  }

  /** When the whole catalog conforms there are no errors, and the per-entry
      verdicts are never consulted: any validator that agrees on the whole
      catalog gives the same outcome. */
  lemma BulkPassSkipsPerEntry(config: seq<Entry>, schema: Json, validate: Validator, other: Validator)
    requires validate(CatalogJson(config), schema).Conforms?
    requires other(CatalogJson(config), schema).Conforms?
    ensures SchemaErrors(config, schema, validate) == Ok([])
    ensures SchemaErrors(config, schema, other) == SchemaErrors(config, schema, validate)
  {
  }

  lemma {:induction false} PerEntryRaises(config: seq<Entry>, schema: Json, validate: Validator, n: nat)
    requires n <= |config|
    ensures PerEntryErrors(config, schema, validate, n).Err? <==>
      n > 0 && (Subscript(schema, "items").Err? ||
                exists i :: 0 <= i < n && validate(JObject(config[i]), Subscript(schema, "items").value).InvalidSchema?)
    ensures PerEntryErrors(config, schema, validate, n).Err? ==>
      PerEntryErrors(config, schema, validate, n).error ==
        (if Subscript(schema, "items").Err? then Subscript(schema, "items").error else SchemaError)
  {
    if n > 0 {
      PerEntryRaises(config, schema, validate, n - 1);
    }
  }

  /** `validate_schema` raises exactly when the schema is rejected, or the
      catalog fails and then either `schema["items"]` cannot be read or the
      item schema is rejected; with an empty catalog `schema["items"]` is
      never read. */
  lemma SchemaRaisesIff(config: seq<Entry>, schema: Json, validate: Validator)
    ensures SchemaErrors(config, schema, validate).Err? <==>
      || validate(CatalogJson(config), schema).InvalidSchema?
      || (&& validate(CatalogJson(config), schema).Violation?
          && |config| > 0
          && (|| Subscript(schema, "items").Err?
              || exists i :: 0 <= i < |config| && validate(JObject(config[i]), Subscript(schema, "items").value).InvalidSchema?))
  {
    PerEntryRaises(config, schema, validate, |config|);
  }

  /** A record's default id names its entry: `entry-` followed by the index. */
  lemma DefaultIdNamesEntry(entry: Entry, i: nat, path: seq<PathElem>, message: string)
    requires "id" !in entry
    ensures var id := RecordFor(entry, i, path, message).id;
            id.JStr? && id.s[..6] == "entry-" && ParseNat(id.s[6..]) == i
  {
    var s := RecordFor(entry, i, path, message).id.s;
    assert s[6..] == NatToString(i);
    ParseNatToString(i);
  }

  /** A root-level error has an empty path; otherwise, when no key on the
      path contains a dot, the path can be read back from its text. */
  lemma {:induction false} PathStringRoundTrip(path: seq<PathElem>)
    requires forall p :: p in path && p.Key? ==> '.' !in p.name
    ensures path == [] ==> PathString(path) == ""
    ensures path != [] ==> Split(PathString(path)) == PathParts(path)
  {
    var parts := PathParts(path);
    forall s | s in parts
      ensures '.' !in s
    {
      var k :| 0 <= k < |parts| && parts[k] == s;
      assert path[k] in path;
      if path[k].Index? {
        var digits := NatToString(path[k].pos);
        assert forall c :: c in digits ==> '0' <= c <= '9';
      }
    }
    if path != [] {
      SplitJoin(parts);
    }
  }
}

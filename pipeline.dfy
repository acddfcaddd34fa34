/** The driver: load, then format, duplicate-id, schema and icon checks, in
    that order, stopping at the first stage that fails. The process exit is
    a returned status; what the driver prints is represented by the
    problem a failing stage reports and by the unused-icon warning. */
module Pipeline {
  import opened JsonValues
  import opened FormatCheck
  import opened DuplicateIds
  import opened SchemaCheck
  import opened IconCheck

  datatype Stage = LoadStage | FormatStage | DuplicateStage | SchemaStage | IconStage

  /** Every stage, in the order the driver runs them. */
  const Stages: seq<Stage> := [LoadStage, FormatStage, DuplicateStage, SchemaStage, IconStage]

  /** What a failing stage reports before the process exits with status 1. */
  datatype Problem =
    | LoadFailed                                    // a document is unreadable or not JSON
    | NotACatalog                                   // not a list of objects
    | DuplicateIdsFound(ids: set<Json>)
    | SchemaViolations(schemaErrors: seq<SchemaRecord>)
    | IconsDirUnreadable                            // the icons directory cannot be listed
    | MissingIcons(iconErrors: seq<IconRecord>)

  /** How a run ends: success, a reported failure, or an uncaught exception. */
  datatype Status =
    | Passed
    | Failed(stage: Stage, problem: Problem)
    | Raised(stage: Stage, exception: PyException)

  /** The stages that ran, how the run ended, and the unused icon files the
      icon stage warned about. */
  datatype Report = Report(ran: seq<Stage>, status: Status, unusedIcons: seq<string>)

  /** The process exit code: 0 on success, 1 for a failure or an uncaught
      exception. */
  function ExitCode(status: Status): (code: int)
    ensures code == 0 || code == 1
    ensures code == 0 <==> status.Passed?
  {
    if status.Passed? then 0 else 1
  }

  /** `main`. `config` and `schema` are the loaded documents, or None when a
      file could not be read or parsed; `listing` is the icons directory's
      file names, or None when it cannot be listed. */
  function Validate(config: Option<Json>, schema: Option<Json>, listing: Option<seq<string>>,
                    validate: Validator, closeMatches: CloseMatches): (r: Report)
    ensures 1 <= |r.ran| <= |Stages|
    ensures r.ran == Stages[..|r.ran|]
    ensures !r.status.Passed? ==> r.status.stage == r.ran[|r.ran| - 1]
    ensures r.status.Passed? ==> r.ran == Stages
    ensures r.unusedIcons != [] ==>
      r.ran == Stages && (r.status.Passed? || (r.status.Failed? && r.status.problem.MissingIcons?))
  {
    if config.None? || schema.None? then
      Report(Stages[..1], Failed(LoadStage, LoadFailed), [])
    else if !IsCatalog(config.value) then
      Report(Stages[..2], Failed(FormatStage, NotACatalog), [])
    else
      var entries := EntriesOf(config.value);
      match ValidateDuplicateIds(entries)
      case Err(e) => Report(Stages[..3], Raised(DuplicateStage, e), [])
      case Ok(duplicates) =>
        if duplicates != {} then
          Report(Stages[..3], Failed(DuplicateStage, DuplicateIdsFound(duplicates)), [])
        else
          match SchemaErrors(entries, schema.value, validate)
          case Err(e) => Report(Stages[..4], Raised(SchemaStage, e), [])
          case Ok(schemaErrors) =>
            if schemaErrors != [] then
              Report(Stages[..4], Failed(SchemaStage, SchemaViolations(schemaErrors)), [])
            else if listing.None? then
              Report(Stages, Failed(IconStage, IconsDirUnreadable), [])
            else
              match IconErrors(entries, listing.value, closeMatches, |entries|)
              case Err(e) => Report(Stages, Raised(IconStage, e), [])
              case Ok(iconErrors) =>
                var unused := UnusedIcons(entries, listing.value);
                Report(Stages, if iconErrors == [] then Passed else Failed(IconStage, MissingIcons(iconErrors)), unused)
  }

  /** A stage that fails stops the run: whatever the later stages would
      have been given does not change the report. */
  lemma LaterStagesDoNotRun(config: Option<Json>, schema: Option<Json>, listing: Option<seq<string>>,
                            validate: Validator, closeMatches: CloseMatches,
                            listing': Option<seq<string>>, validate': Validator, closeMatches': CloseMatches)
    ensures var r := Validate(config, schema, listing, validate, closeMatches);
            !r.status.Passed? && r.status.stage in {LoadStage, FormatStage, DuplicateStage} ==>
              Validate(config, schema, listing', validate', closeMatches') == r
    ensures var r := Validate(config, schema, listing, validate, closeMatches);
            !r.status.Passed? && r.status.stage == SchemaStage ==>
              Validate(config, schema, listing', validate, closeMatches') == r
  {
  }

  /** No error records means no missing icon, and the other way round. */
  lemma {:induction false} NoIconErrorsIff(entries: seq<Entry>, files: seq<string>, closeMatches: CloseMatches)
    ensures IconErrors(entries, files, closeMatches, |entries|) == Ok([]) <==>
      forall i :: 0 <= i < |entries| ==> !MissingIcon(entries[i], files)
  {
    IconCheckRaises(entries, files, closeMatches, |entries|);
    IconErrorsExact(entries, files, closeMatches, |entries|);
    var idx := EntriesMissingIcons(entries, files, |entries|);
    if idx != [] {
      assert MissingIcon(entries[idx[0]], files);
    }
  }

  /** A run passes, and exits with 0, exactly when both documents load, the
      catalog is a list of objects, the truthy ids are hashable and pairwise
      distinct, schema validation reports nothing, the icons directory can
      be listed and every truthy icon names a listed file. Unused icon files
      never matter. */
  lemma PassedIff(config: Option<Json>, schema: Option<Json>, listing: Option<seq<string>>,
                  validate: Validator, closeMatches: CloseMatches)
    ensures var r := Validate(config, schema, listing, validate, closeMatches);
            (ExitCode(r.status) == 0) <==>
              && config.Some? && schema.Some?
              && IsCatalog(config.value)
              && (forall v :: v in TruthyIds(EntriesOf(config.value)) ==> Hashable(v))
              && (var ids := TruthyIds(EntriesOf(config.value));
                  forall i, j :: 0 <= i < j < |ids| ==> Canon(ids[i]) != Canon(ids[j]))
              && SchemaErrors(EntriesOf(config.value), schema.value, validate) == Ok([])
              && listing.Some?
              && (forall i :: 0 <= i < |EntriesOf(config.value)| ==>
                    !MissingIcon(EntriesOf(config.value)[i], listing.value))
  {
    if config.None? || schema.None? || !IsCatalog(config.value) {
      return;
    }
    var r := Validate(config, schema, listing, validate, closeMatches);
    var entries := EntriesOf(config.value);
    var ids := TruthyIds(entries);
    match ValidateDuplicateIds(entries)
    case Err(_) =>
      assert r.status.Raised?;
    case Ok(duplicates) =>
      assert forall v :: v in ids ==> Hashable(v);
      NoDuplicatesIff(ids);
      if duplicates != {} {
        assert r.status.Failed?;
      } else {
        match SchemaErrors(entries, schema.value, validate)
        case Err(_) =>
          assert r.status.Raised?;
        case Ok(schemaErrors) =>
          if schemaErrors != [] {
            assert r.status.Failed?;
          } else if listing.Some? {
            NoIconErrorsIff(entries, listing.value, closeMatches);
            match IconErrors(entries, listing.value, closeMatches, |entries|)
            case Err(_) =>
              assert r.status.Raised?;
            case Ok(iconErrors) =>
              assert r.status.Passed? <==> iconErrors == [];
          }
      }
  }

  /** The catalog `[{"id": "t1", "name": "A", "icon": "a.png"},
      {"id": "t1", "name": "B"}]` fails at the duplicate-id stage with the
      duplicates {"t1"}, exits with 1, and runs neither the schema nor the
      icon stage. */
  lemma DuplicateScenario(schema: Json, listing: Option<seq<string>>, validate: Validator, closeMatches: CloseMatches)
    ensures var first := map["id" := JStr("t1"), "name" := JStr("A"), "icon" := JStr("a.png")];
            var second := map["id" := JStr("t1"), "name" := JStr("B")];
            var r := Validate(Some(JArray([JObject(first), JObject(second)])), Some(schema), listing, validate, closeMatches);
            && r.status == Failed(DuplicateStage, DuplicateIdsFound({JStr("t1")}))
            && ExitCode(r.status) == 1
            && SchemaStage !in r.ran && IconStage !in r.ran
  {
    var first := map["id" := JStr("t1"), "name" := JStr("A"), "icon" := JStr("a.png")];
    var second := map["id" := JStr("t1"), "name" := JStr("B")];
    var config := JArray([JObject(first), JObject(second)]);
    assert EntriesOf(config) == [first, second];
    SameIdTwice(first, second);
  }

  /** Two entries with the truthy id "t1" make "t1" the one duplicate. */
  lemma SameIdTwice(first: Entry, second: Entry)
    requires Id(first) == JStr("t1") && Id(second) == JStr("t1")
    ensures ValidateDuplicateIds([first, second]) == Ok({JStr("t1")})
  {
    var entries := [first, second];
    assert entries[1..] == [second] && entries[1..][1..] == [];
    assert TruthyIds(entries[1..]) == [JStr("t1")];
    var ids := TruthyIds(entries);
    assert ids == [JStr("t1"), JStr("t1")];
    assert ids[1..] == [JStr("t1")] && ids[1..][1..] == [];
    assert CountKey(ids[1..][1..], JStr("t1")) == 0;
    assert CountKey(ids[1..], JStr("t1")) == 1;
    assert CountKey(ids, JStr("t1")) == 2;
    assert FirstOfKey(ids, 0);
    assert Duplicates(ids) == {JStr("t1")};
  }

  /** Entries using only "a.png", with "a.png" and "b.png" in the icons
      directory and a catalog the schema accepts: the run passes and warns
      that "b.png" is unused. */
  lemma UnusedIconScenario(schema: Json, validate: Validator, closeMatches: CloseMatches)
    ensures var entry := map["id" := JStr("t1"), "name" := JStr("A"), "icon" := JStr("a.png")];
            var config := JArray([JObject(entry)]);
            validate(config, schema).Conforms? ==>
              var r := Validate(Some(config), Some(schema), Some(["a.png", "b.png"]), validate, closeMatches);
              r.status == Passed && r.unusedIcons == ["b.png"]
  {
    var entry := map["id" := JStr("t1"), "name" := JStr("A"), "icon" := JStr("a.png")];
    var config := JArray([JObject(entry)]);
    assert EntriesOf(config) == [entry];
    CatalogOfEntries(config);
    OneIdNoDuplicates(entry);
    OnlyAUsed(entry, closeMatches);
  }

  /** A single entry cannot repeat its id. */
  lemma OneIdNoDuplicates(entry: Entry)
    requires Id(entry) == JStr("t1")
    ensures ValidateDuplicateIds([entry]) == Ok({})
  {
    var entries := [entry];
    assert entries[1..] == [];
    var ids := TruthyIds(entries);
    assert ids == [JStr("t1")] && ids[1..] == [];
    assert CountKey(ids, JStr("t1")) == 1;
    assert Duplicates(ids) == {};
  }

  /** One entry using "a.png", with "a.png" and "b.png" listed: no icon
      error, and "b.png" is unused. */
  lemma OnlyAUsed(entry: Entry, closeMatches: CloseMatches)
    requires Icon(entry) == JStr("a.png")
    ensures IconErrors([entry], ["a.png", "b.png"], closeMatches, 1) == Ok([])
    ensures UnusedIcons([entry], ["a.png", "b.png"]) == ["b.png"]
  {
    var entries := [entry];
    var files := ["a.png", "b.png"];
    assert entries[1..] == [];
    assert UsedIcons(entries) == [JStr("a.png")];
    assert !MissingIcon(entry, files);
    assert files[1..] == ["b.png"] && files[1..][1..] == [];
    assert UnusedIcons(entries, files[1..][1..]) == [];
    assert UnusedIcons(entries, files[1..]) == ["b.png"];
  }

  /** An entry whose icon is the number 5, with an empty icons directory and
      a catalog the schema accepts: the similarity search cannot take the
      number, so the run ends at the icon stage with TypeError and exits
      with 1, warning about nothing. */
  lemma IntIconScenario(schema: Json, validate: Validator, closeMatches: CloseMatches)
    ensures var config := JArray([JObject(map["icon" := JInt(5)])]);
            validate(config, schema).Conforms? ==>
              var r := Validate(Some(config), Some(schema), Some([]), validate, closeMatches);
              r.status == Raised(IconStage, TypeError) && ExitCode(r.status) == 1 && r.unusedIcons == []
  {
    var entry := map["icon" := JInt(5)];
    var config := JArray([JObject(entry)]);
    var entries := EntriesOf(config);
    assert entries == [entry] && entries[1..] == [];
    CatalogOfEntries(config);
    assert Id(entry) == JNull;
    assert TruthyIds(entries) == [];
    assert Duplicates([]) == {};
    assert MissingIcon(entry, []);
    assert IconErrors(entries, [], closeMatches, 1) == Err(TypeError);
  }

  /** An entry whose icon is an object, with "yab" listed and a catalog the
      schema accepts: when scoring "yab" indexes the object by position and
      raises KeyError, the run ends at the icon stage with that exception
      and exits with 1, warning about nothing. */
  lemma ObjectIconScenario(schema: Json, validate: Validator, closeMatches: CloseMatches)
    ensures var icon := JObject(map["x" := JInt(1), "a" := JInt(1), "b" := JInt(1)]);
            var config := JArray([JObject(map["icon" := icon])]);
            validate(config, schema).Conforms? && closeMatches(icon, ["yab"]) == Err(KeyError) ==>
              var r := Validate(Some(config), Some(schema), Some(["yab"]), validate, closeMatches);
              r.status == Raised(IconStage, KeyError) && ExitCode(r.status) == 1 && r.unusedIcons == []
  {
    var icon := JObject(map["x" := JInt(1), "a" := JInt(1), "b" := JInt(1)]);
    var entry := map["icon" := icon];
    var config := JArray([JObject(entry)]);
    var entries := EntriesOf(config);
    assert entries == [entry] && entries[1..] == [];
    CatalogOfEntries(config);
    assert Id(entry) == JNull;
    assert TruthyIds(entries) == [];
    assert Duplicates([]) == {};
    assert Icon(entry) == icon && "x" in icon.fields;
    assert MissingIcon(entry, ["yab"]);
    if closeMatches(icon, ["yab"]) == Err(KeyError) {
      assert IconErrors(entries, ["yab"], closeMatches, 1) == Err(KeyError);
    }
  }
}

# Template catalog validator, modelled in Dafny

`templates/validate.py` checks a catalog of template entries (a JSON list of
objects) before it is published. It runs five steps in a fixed order and stops
at the first one that fails:

1. load the catalog and the JSON schema;
2. format check: the catalog is a list of objects;
3. duplicate-id check: no two entries share a truthy `id`;
4. schema check in two passes: the whole catalog is validated first. Only if
   that fails is each entry validated against `schema["items"]`, giving one
   localized error record per failing entry;
5. icon check: every truthy `icon` names a file in the icons directory. A
   missing icon gets the closest file name as a suggestion when there is one.
   Icon files that no entry uses are reported as a warning only.

The model works on parsed JSON values. It spells out the Python semantics the
checks depend on:

- truthiness: `None`, `False`, `0`, `""`, `[]` and `{}` are falsy;
- `dict.get` with and without a default;
- `schema["items"]` raising `KeyError` or `TypeError`;
- `set` and `list.count`, which treat `True` and `1` as the same value;
  `set` also raises `TypeError` on a list or an object, which cannot be
  hashed.

The JSON-schema engine and the similarity search are parameters. The exit
status is a returned value.

| file | module | models |
|---|---|---|
| json_values.dfy | `JsonValues` | JSON values, truthiness, `get`, subscripting, hashing and equality |
| text.dfy | `Text` | `str` of an index and `".".join`, each with its inverse |
| format_check.dfy | `FormatCheck` | `validate_json_format` |
| duplicate_ids.dfy | `DuplicateIds` | `validate_duplicate_ids` |
| schema_check.dfy | `SchemaCheck` | `validate_schema` |
| icon_check.dfy | `IconCheck` | `find_similar_filename`, `validate_icons` |
| pipeline.dfy | `Pipeline` | `main` |

`validate_json_format`, `validate_schema` and the error loop of
`validate_icons` are methods with loops. Each is proved equal to a
specification function, or proved to meet its stated property directly. The
comprehensions and the driver are functions. The properties are stated as
lemmas about those functions.

## Model

| member | source | states |
|---|---|---|
| JsonValues.Canon | templates/validate.py:89 | the value `set` and `==` identify a hashable id with: `True` becomes 1, `False` becomes 0, every other value stays itself; truthiness and hashability are kept |
| JsonValues.Subscript | templates/validate.py:57 | `schema["items"]` succeeds exactly on an object that has the key; otherwise KeyError on an object, TypeError on anything else |
| Text.NatToString | templates/validate.py:60 | `str(i)` is a non-empty string of decimal digits with no leading zero |
| Text.ParseNatToString | templates/validate.py:60 | the number can be read back from `str(i)` |
| Text.NatToStringInjective | templates/validate.py:60 | different indices print differently, so the default ids `entry-<i>` are distinct |
| Text.Join | templates/validate.py:63 | `".".join` of no pieces is empty; the first piece starts the text; for dot-free pieces the text holds a dot iff there are two or more pieces |
| Text.SplitJoin | templates/validate.py:63 | `".".join` of one or more pieces without dots is undone by splitting on dots |
| FormatCheck.ValidateJsonFormat | templates/validate.py:68-84 | reports success iff the config is a list and every element is an object; "not a list" iff it is not a list; otherwise names the first element that is not an object, all earlier ones being objects |
| FormatCheck.CatalogJson | templates/validate.py:52 | the entry list as one JSON value is a catalog whose entries are exactly those entries |
| FormatCheck.CatalogOfEntries | templates/validate.py:163 | a catalog equals the JSON list of its entries, so the whole-catalog validation sees the config itself |
| DuplicateIds.TruthyIds | templates/validate.py:88 | `ids` holds only truthy values and is no longer than the entry list |
| DuplicateIds.TruthyIdsMembers | templates/validate.py:88 | a value is in `ids` iff some entry has it as its truthy `id` |
| DuplicateIds.Duplicates | templates/validate.py:89 | every reported id occurs in `ids` and is counted more than once |
| DuplicateIds.CountKey | templates/validate.py:89 | `ids.count(k)` never exceeds the length of `ids` |
| DuplicateIds.CountPositive | templates/validate.py:89 | `ids.count(k) > 0` iff some position of `ids` equals `k` |
| DuplicateIds.CountAboveOne | templates/validate.py:89 | `ids.count(k) > 1` iff two different positions of `ids` equal `k` |
| DuplicateIds.FirstOccurrence | templates/validate.py:89 | every id has an earliest equal occurrence, the representative `set(ids)` keeps |
| DuplicateIds.DuplicatesComplete | templates/validate.py:89 | every id counted more than once is reported, as an equal value |
| DuplicateIds.DuplicatesReportedOnce | templates/validate.py:89 | no two reported values are equal, so each duplicate is reported once |
| DuplicateIds.NoDuplicatesIff | templates/validate.py:89-90 | nothing is reported iff the truthy ids are pairwise distinct |
| DuplicateIds.ValidateDuplicateIds | templates/validate.py:86-90 | `validate_duplicate_ids` either raises TypeError or returns truthy, hashable ids that each occur more than once among the truthy ids |
| DuplicateIds.UnhashableIdRaises | templates/validate.py:89 | the check raises TypeError iff some entry's truthy id is a list or an object |
| DuplicateIds.FalsyIdExempt | templates/validate.py:88 | inserting an entry whose id is missing or falsy never changes the outcome |
| SchemaCheck.PerEntryErrors | templates/validate.py:55-64 | the second pass over n entries gives at most n records |
| SchemaCheck.SchemaErrors | templates/validate.py:47-66 | `validate_schema` never returns more records than there are entries |
| SchemaCheck.ValidateSchema | templates/validate.py:47-66 | the loop returns exactly the records or the exception of the two-pass definition |
| SchemaCheck.PerEntryErrorPersists | templates/validate.py:55-58 | an exception in the second pass ends it: later entries change nothing |
| SchemaCheck.FailingEntries | templates/validate.py:55-58 | the indices of the entries that fail the item schema, strictly increasing, each failing, none missed |
| SchemaCheck.PerEntryErrorsExact | templates/validate.py:55-64 | the second pass gives one record per failing entry, in entry order, built from that entry's error |
| SchemaCheck.SchemaErrorsExact | templates/validate.py:51-64 | when the whole catalog fails: one record per entry failing the item schema, in entry order; passing entries add nothing |
| SchemaCheck.BulkPassSkipsPerEntry | templates/validate.py:51-52 | when the whole catalog conforms the result is empty, and no per-entry verdict is consulted |
| SchemaCheck.PerEntryRaises | templates/validate.py:55-58 | the second pass raises iff there is an entry and `schema["items"]` fails or the item schema is rejected, with that exception |
| SchemaCheck.SchemaRaisesIff | templates/validate.py:51-58 | `validate_schema` raises iff the schema is rejected, or the catalog fails, has an entry, and the item schema cannot be read or is rejected |
| SchemaCheck.DefaultIdNamesEntry | templates/validate.py:60 | an entry without `id` gets the id `entry-<i>`, from which its index can be read back |
| SchemaCheck.RecordFor | templates/validate.py:59-63 | a record keeps a present `id` and `name` as they are, and uses `entry-<i>` and "unknown" only when the key is absent; its error text is the validator's; its path is the `.`-join of the error path, empty for a root-level error |
| SchemaCheck.PathStringRoundTrip | templates/validate.py:63 | a root-level error has the empty path; otherwise, with no dot in any key, the path can be read back from its text |
| IconCheck.FindSimilarFilename | templates/validate.py:42-45 | raises TypeError when the similarity search cannot take the word (None, a number, a bool, or a list holding a list or an object), and otherwise raises exactly what the search raises, which can only be KeyError on an object icon; when it does not raise, it is the first close match, None when there is none, and always a listed file when the search draws from the listing |
| IconCheck.IconRecordFor | templates/validate.py:106-120 | the record for a missing icon, or the exception of the similarity search: it carries the requested icon and "Icon file not found in icons directory", keeps a present `id`/`name` and reads an absent one as "unknown", and has a suggestion exactly when the first close match exists and is non-empty, that match being the suggestion |
| IconCheck.IconErrors | templates/validate.py:105-122 | the loop either raises (TypeError, or KeyError on an object icon) or gives at most one error per entry, each saying "Icon file not found in icons directory" for a truthy icon that is not a listed file |
| IconCheck.IconErrorPersists | templates/validate.py:105-122 | once the loop has raised, later entries change nothing |
| IconCheck.UsedIcons | templates/validate.py:127 | `used_icons` holds only truthy values |
| IconCheck.UnusedIcons | templates/validate.py:128 | a file is unused iff it is listed and no used icon equals it; each unused file appears as often as it is listed, in listing order |
| IconCheck.ValidateIcons | templates/validate.py:92-134 | the loop returns exactly the icon errors, or the exception that stops it, and the unused files separately; computing the unused files does not touch the errors; a raising run warns about nothing |
| IconCheck.EntriesMissingIcons | templates/validate.py:105-110 | the indices of the entries with a missing icon, strictly increasing, none missed |
| IconCheck.IconCheckRaises | templates/validate.py:109-118 | the loop raises iff some entry has a missing icon on which the similarity search raises |
| IconCheck.StringIconsNeverRaise | templates/validate.py:109-118 | when every truthy icon is a string, the icon loop never raises |
| IconCheck.IconErrorsExact | templates/validate.py:105-122 | unless the loop raises: one error per entry whose truthy icon is not a listed file, in entry order, each the record built for that entry; other entries add nothing |
| IconCheck.SuggestionFromListing | templates/validate.py:118-120 | a suggestion is always a listed file and never the icon that was asked for |
| IconCheck.UsedIconsMembers | templates/validate.py:127 | a value is used iff some entry has it as its truthy icon |
| IconCheck.UnusedIconsExact | templates/validate.py:127-128 | a file is unused iff it is listed and no entry's truthy icon names it |
| Pipeline.ExitCode | templates/validate.py:146-190 | the exit code is 0 iff the run passed, 1 otherwise |
| Pipeline.Validate | templates/validate.py:136-190 | `main`: the stages that ran are a prefix of load, format, duplicates, schema, icons; a run that does not pass ends at the last of them; a passing run ran all; unused files are reported only once the icon loop has finished |
| Pipeline.LaterStagesDoNotRun | templates/validate.py:146-170 | once a stage fails, the inputs of the later stages do not change the report |
| Pipeline.NoIconErrorsIff | templates/validate.py:176-187 | the icon stage neither raises nor reports anything iff no entry has a missing icon |
| Pipeline.PassedIff | templates/validate.py:136-190 | exit 0 iff both documents load, the config is a list of objects, the truthy ids are hashable and pairwise distinct, the schema check reports nothing, the directory can be listed and every truthy icon is listed; unused files never matter |
| Pipeline.DuplicateScenario | templates/validate.py:152-157 | two entries with id "t1" stop the run at the duplicate stage with {"t1"} and exit 1; schema and icon stages do not run |
| Pipeline.UnusedIconScenario | templates/validate.py:126-134 | with only "a.png" used and "a.png", "b.png" listed, an accepted catalog passes and "b.png" is reported unused |
| Pipeline.IntIconScenario | templates/validate.py:109-118 | an accepted catalog whose one entry has the icon 5 ends at the icon stage with TypeError and exit 1, even with an empty icons directory |
| Pipeline.ObjectIconScenario | templates/validate.py:109-118 | an accepted catalog whose one entry has an object icon ends at the icon stage with KeyError and exit 1 when scoring a candidate raises, and warns about nothing |

## Where the code decides

Python's semantics decide these points, and the model follows the code:

- Exemption from the duplicate check is by Python truthiness. An id of `0`,
  `false`, `[]` or `{}` is exempt, not only a missing, null or empty one.
- The duplicate check compares ids with Python `==`. An id `true` and an id
  `1` are duplicates of each other. A truthy id that is a list or an object
  makes `set(ids)` raise `TypeError`; the run then ends with an uncaught
  exception (exit 1).
- `entry.get("id", f"entry-{i}")` uses the default only when the key is
  absent. An entry with `"id": null` gets `null`. The same holds for the
  `name` and the icon record's `"unknown"` defaults.
- The format check returns at the first element that is not an object.
- `schema["items"]` is evaluated inside the per-entry loop. For an empty
  catalog it is never read. Otherwise a schema without it raises `KeyError`,
  and one that is not an object raises `TypeError`.
- A schema that the engine rejects raises `SchemaError`. That is not the
  `ValidationError` the code catches, so it escapes as an uncaught exception.
- The icon directory is listed inside the icon stage. If it cannot be
  listed, the run exits 1 at that stage.
- A missing icon is handed to `difflib.get_close_matches` whatever its JSON
  type. That function first builds an index of the word's elements. So a
  truthy number or `true` raises `TypeError`, even with an empty icons
  directory, and so does a list that holds a list or an object. The loop
  stops there and the run ends with an uncaught exception (exit 1). A list
  of hashable values gets through and may get a suggestion.
- An object icon gets past that first step (its keys are indexed). Scoring a
  candidate can then index the word by position, which on an object raises
  `KeyError`. Whether it does depends on the listing and on the order of the
  object's keys. The model lets the similarity search raise `KeyError` on an
  object word and in no other case; the run then ends with an uncaught
  exception at the icon stage (exit 1).
- The suggestion comes from `difflib.get_close_matches(n=1, cutoff=0.6)`.
  That function ranks candidates by score and breaks ties in favour of the
  larger candidate string. The model does not fix any tie rule (see below).

## Left out

- File loading and JSON parsing (`load_json_file`, `load_config`,
  `load_schema`) are I/O. The model takes the parsed documents as inputs, or
  None for a file that cannot be read or parsed.
- `get_icons_directory` and `os.listdir` are directory I/O. The listing is a
  parameter, or None when the directory cannot be listed.
- The `jsonschema` engine is a foreign library. It is a parameter that
  returns conform, a validation error (its path and its text), or a
  rejected schema. Any other exception the engine raises, such as an item
  schema whose `$ref` cannot be resolved once it is validated apart from
  its root document, is folded into the rejected schema: it escapes
  `validate_schema` uncaught and ends the run at the schema stage with exit
  1 all the same, only under another exception name. Which error the engine reports first, and the wording of
  `str(error)`, are not modelled.
- `difflib.get_close_matches` is a foreign library. It is a parameter. The
  model uses three facts about it: it returns names from the list it is
  given; it raises `TypeError` on a word whose elements it cannot take; and
  otherwise it can raise only `KeyError`, on an object word (both described
  above). Its similarity ratio, the 0.6 cutoff and its tie order are not
  modelled.
- IconCheck.FindSimilarFilename: for an object icon, whether the search
  raises `KeyError` or returns a suggestion can depend on the order of the
  object's keys. Objects are maps here, so the search parameter gives one
  outcome per object and does not tell two key orders apart.
- All printed output is left out: progress lines, check marks, itemized
  errors and the unused-icon warning text. So is the `jsonschema` import
  guard. The failing stage's problem and the unused file list stand for what
  is printed.
- JSON numbers that `json.load` reads as floats (a fraction, an exponent
  such as `1e3`, `NaN`, `Infinity`) are not modelled (integers only). The
  order of keys inside an object is not modelled either (objects are maps).
  Only the similarity search on an object icon depends on key order (see
  above).
- The `except Exception` branch of `validate_json_format` is not modelled:
  nothing in its body can raise on a parsed JSON value.
- Duplicate ids are a set. The order in which Python iterates `set(ids)`, and
  so the printed order of the duplicates, is not modelled.

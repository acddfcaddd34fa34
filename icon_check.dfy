/** Stage 5: every truthy `icon` must name a file of the icons directory.
    A missing icon is reported with the closest file name when the
    similarity search finds one; icon files no entry uses are listed as
    an informational warning.

    The directory listing is a parameter, and so is the similarity search
    (`difflib.get_close_matches(word, possibilities, n=1, cutoff=0.6)`),
    of which the model knows three things: it returns names from the list
    it is given; it raises TypeError on a word whose elements it cannot
    take (`SimilarityRaises`); and the only other way it raises is KeyError
    on an object word, which it indexes by position while scoring a
    candidate. */
module IconCheck {
  import opened JsonValues

  /** `difflib.get_close_matches(icon, icon_files, n=1, cutoff=0.6)`, for a
      word whose elements it can take: the close matches, or the exception
      raised while scoring the candidates. */
  type CloseMatches = (Json, seq<string>) -> Result<seq<string>>

  /** The similarity search only ever returns candidates it was offered. */
  ghost predicate DrawsFromListing(closeMatches: CloseMatches) {
    forall word, files, x :: closeMatches(word, files).Ok? && x in closeMatches(word, files).value ==> x in files
  }

  /** Scoring indexes the word by position. That works on a string and on a
      list, but on an object it looks up an integer key and raises KeyError
      (whether it gets that far depends on the listing and on the order of
      the object's keys). Nothing else raises once the word is accepted. */
  ghost predicate RaisesOnlyOnObjects(closeMatches: CloseMatches) {
    forall word, files :: closeMatches(word, files).Err? ==>
      word.JObject? && closeMatches(word, files).error == KeyError
  }

  /** `get_close_matches` hands the word to `SequenceMatcher.set_seq2`,
      which builds a dictionary from the word's elements before any
      candidate is looked at. None, an int or a bool cannot be iterated,
      and a list holding a list or an object cannot be hashed: each raises
      TypeError, whatever the listing. A string, an object (its keys) or a
      list of hashable values gets past this point. */
  predicate SimilarityRaises(word: Json) {
    match word
    case JNull => true
    case JBool(_) => true
    case JInt(_) => true
    case JStr(_) => false
    case JArray(items) => exists k :: 0 <= k < |items| && !Hashable(items[k])
    case JObject(_) => false
  }

  const NotFound := "Icon file not found in icons directory"

  /** One icon error: `{id, name, icon, error}` and, when there is one,
      `suggestion`. */
  datatype IconRecord = IconRecord(id: Json, name: Json, icon: Json, error: string, suggestion: Option<string>)

  /** `entry.get("icon")`. */
  function Icon(e: Entry): Json {
    Get(e, "icon", JNull)
  }

  /** `icon in icon_files`: only a string can equal a file name. */
  predicate Listed(icon: Json, files: seq<string>) {
    icon.JStr? && icon.s in files
  }

  /** The entry names an icon, and no such file exists. */
  predicate MissingIcon(e: Entry, files: seq<string>) {
    Truthy(Icon(e)) && !Listed(Icon(e), files)
  }

  /** `find_similar_filename`: the first close match, if any, or the
      exception the similarity search raises. */
  function FindSimilarFilename(icon: Json, files: seq<string>, closeMatches: CloseMatches): (r: Result<Option<string>>)
    ensures r.Err? <==> SimilarityRaises(icon) || closeMatches(icon, files).Err?
    ensures SimilarityRaises(icon) ==> r == Err(TypeError)
    ensures !SimilarityRaises(icon) && closeMatches(icon, files).Err? ==> r == Err(closeMatches(icon, files).error)
    ensures RaisesOnlyOnObjects(closeMatches) && r.Err? ==>
      (r.error == TypeError && SimilarityRaises(icon)) || (r.error == KeyError && icon.JObject?)
    ensures r.Ok? ==>
      var matches := closeMatches(icon, files).value;
      r.value == if matches == [] then None else Some(matches[0])
    ensures DrawsFromListing(closeMatches) && r.Ok? && r.value.Some? ==> r.value.value in files
  {
    if SimilarityRaises(icon) then Err(TypeError)
    else
      match closeMatches(icon, files)
      case Err(x) => Err(x)
      case Ok(matches) =>
        if matches == [] then Ok(None)
        else
          assert matches[0] in closeMatches(icon, files).value;
          Ok(Some(matches[0]))
  }

  /** The error built for an entry whose icon is missing; the suggestion is
      attached only when it is truthy, that is, a non-empty name. */
  function IconRecordFor(e: Entry, files: seq<string>, closeMatches: CloseMatches): (r: Result<IconRecord>)
    ensures r.Err? <==> FindSimilarFilename(Icon(e), files, closeMatches).Err?
    ensures r.Err? ==> r.error == FindSimilarFilename(Icon(e), files, closeMatches).error
    ensures r.Ok? ==> r.value.icon == Icon(e) && r.value.error == NotFound
    ensures r.Ok? ==> r.value.id == (if "id" in e then e["id"] else JStr("unknown"))
    ensures r.Ok? ==> r.value.name == (if "name" in e then e["name"] else JStr("unknown"))
    ensures r.Ok? ==>
      var matches := closeMatches(Icon(e), files).value;
      r.value.suggestion == if matches != [] && matches[0] != "" then Some(matches[0]) else None
  {
    match FindSimilarFilename(Icon(e), files, closeMatches)
    case Err(x) => Err(x)
    case Ok(similar) =>
      Ok(IconRecord(
        Get(e, "id", JStr("unknown")),
        Get(e, "name", JStr("unknown")),
        Icon(e),
        NotFound,
        if similar.Some? && similar.value != "" then similar else None))
  }

  /** The errors for the first `n` entries, or the exception that ends the
      loop at the first missing icon on which the similarity search raises. */
  function IconErrors(entries: seq<Entry>, files: seq<string>, closeMatches: CloseMatches, n: nat)
    : (r: Result<seq<IconRecord>>)
    requires n <= |entries|
    ensures RaisesOnlyOnObjects(closeMatches) && r.Err? ==> r.error == TypeError || r.error == KeyError
    ensures r.Ok? ==> |r.value| <= n
    ensures r.Ok? ==> forall k :: 0 <= k < |r.value| ==>
      r.value[k].error == NotFound && Truthy(r.value[k].icon) && !Listed(r.value[k].icon, files)
  {
    if n == 0 then Ok([])
    else
      match IconErrors(entries, files, closeMatches, n - 1)
      case Err(x) => Err(x)
      case Ok(errors) =>
        if !MissingIcon(entries[n - 1], files) then Ok(errors)
        else
          match IconRecordFor(entries[n - 1], files, closeMatches)
          case Err(x) => Err(x)
          case Ok(error) => Ok(errors + [error])
  }

  /** Once the loop has raised, later entries change nothing. */
  lemma {:induction false} IconErrorPersists(entries: seq<Entry>, files: seq<string>, closeMatches: CloseMatches, n: nat, m: nat)
    requires n <= m <= |entries|
    requires IconErrors(entries, files, closeMatches, n).Err?
    ensures IconErrors(entries, files, closeMatches, m) == IconErrors(entries, files, closeMatches, n)
    decreases m
  {
    if n < m {
      IconErrorPersists(entries, files, closeMatches, n, m - 1);
    }
  }

  /** `used_icons`: the truthy icons, in entry order. */
  function UsedIcons(entries: seq<Entry>): (used: seq<Json>)
    ensures forall k :: 0 <= k < |used| ==> Truthy(used[k])
  {
    if entries == [] then []
    else (if Truthy(Icon(entries[0])) then [Icon(entries[0])] else []) + UsedIcons(entries[1..])
  }

  /** `a` is `b` with some elements left out, the rest in their order. */
  predicate IsSubsequence(a: seq<string>, b: seq<string>)
    decreases |b|
  {
    if a == [] then true
    else if b == [] then false
    else (a[0] == b[0] && IsSubsequence(a[1..], b[1..])) || IsSubsequence(a, b[1..])
  }

  /** `unused_icons`: the listed files no entry uses, in listing order, each
      as often as it is listed. */
  function UnusedIcons(entries: seq<Entry>, files: seq<string>): (unused: seq<string>)
    ensures forall f :: f in unused <==> f in files && JStr(f) !in UsedIcons(entries)
    ensures forall f :: multiset(unused)[f] == if JStr(f) in UsedIcons(entries) then 0 else multiset(files)[f]
    ensures IsSubsequence(unused, files)
  {
    if files == [] then []
    else
      var rest := UnusedIcons(entries, files[1..]);
      assert files == [files[0]] + files[1..];
      if JStr(files[0]) in UsedIcons(entries) then
        rest
      else
        assert ([files[0]] + rest)[1..] == rest;
        [files[0]] + rest
  }

  /** `validate_icons` after the directory has been listed: the errors and
      the unused files it warns about, or the exception raised by the
      similarity search, in which case nothing is warned about. */
  method ValidateIcons(entries: seq<Entry>, files: seq<string>, closeMatches: CloseMatches)
    returns (r: Result<seq<IconRecord>>, unused: seq<string>)
    ensures r == IconErrors(entries, files, closeMatches, |entries|)
    ensures r.Ok? ==> unused == UnusedIcons(entries, files)
    ensures r.Err? ==> unused == []
  {
    var errors: seq<IconRecord> := [];
    for i := 0 to |entries|
      invariant IconErrors(entries, files, closeMatches, i) == Ok(errors)
    {
      var entry := entries[i];
      var entryId := Get(entry, "id", JStr("unknown"));
      var icon := Icon(entry);
      if Truthy(icon) {
        if !Listed(icon, files) {
          var error := IconRecord(entryId, Get(entry, "name", JStr("unknown")), icon, NotFound, None);
          var similar := FindSimilarFilename(icon, files, closeMatches);
          if similar.Err? {
            IconErrorPersists(entries, files, closeMatches, i + 1, |entries|);
            return Err(similar.error), [];
          }
          if similar.value.Some? && similar.value.value != "" {
            error := error.(suggestion := similar.value);
          }
          errors := errors + [error];
        }
      }
    }
    r := Ok(errors);
    unused := UnusedIcons(entries, files);
  }

  /** The indices, in increasing order, of the first `n` entries whose icon
      is missing. */
  function EntriesMissingIcons(entries: seq<Entry>, files: seq<string>, n: nat): (idx: seq<nat>)
    requires n <= |entries|
    ensures forall k :: 0 <= k < |idx| ==> idx[k] < n && MissingIcon(entries[idx[k]], files)
    ensures forall i :: 0 <= i < n && MissingIcon(entries[i], files) ==> i in idx
    ensures forall j, k :: 0 <= j < k < |idx| ==> idx[j] < idx[k]
  {
    if n == 0 then []
    else EntriesMissingIcons(entries, files, n - 1) + (if MissingIcon(entries[n - 1], files) then [n - 1] else [])
  }

  /** The loop raises exactly when some entry has a missing icon on which
      the similarity search raises. */
  lemma {:induction false} IconCheckRaises(entries: seq<Entry>, files: seq<string>, closeMatches: CloseMatches, n: nat)
    requires n <= |entries|
    ensures IconErrors(entries, files, closeMatches, n).Err? <==>
      exists i :: 0 <= i < n && MissingIcon(entries[i], files) &&
        FindSimilarFilename(Icon(entries[i]), files, closeMatches).Err?
  {
    if n > 0 {
      IconCheckRaises(entries, files, closeMatches, n - 1);
    }
  }

  /** When every truthy icon is a string, the loop does not raise. */
  lemma StringIconsNeverRaise(entries: seq<Entry>, files: seq<string>, closeMatches: CloseMatches)
    requires RaisesOnlyOnObjects(closeMatches)
    requires forall i :: 0 <= i < |entries| && Truthy(Icon(entries[i])) ==> Icon(entries[i]).JStr?
    ensures IconErrors(entries, files, closeMatches, |entries|).Ok?
  {
    IconCheckRaises(entries, files, closeMatches, |entries|);
  }

  /** Unless the loop raises: one error per entry whose truthy icon is not a
      listed file, in entry order; entries without an icon, or with a listed
      one, add nothing. */
  lemma {:induction false} IconErrorsExact(entries: seq<Entry>, files: seq<string>, closeMatches: CloseMatches, n: nat)
    requires n <= |entries|
    ensures var r := IconErrors(entries, files, closeMatches, n);
            var idx := EntriesMissingIcons(entries, files, n);
            r.Ok? ==>
              |r.value| == |idx| &&
              forall k :: 0 <= k < |idx| ==>
                IconRecordFor(entries[idx[k]], files, closeMatches) == Ok(r.value[k])
  {
    if n > 0 {
      IconErrorsExact(entries, files, closeMatches, n - 1);
    }
  }

  /** A suggestion is always a listed file, and never the icon that was
      asked for. */
  lemma {:induction false} SuggestionFromListing(entries: seq<Entry>, files: seq<string>, closeMatches: CloseMatches, n: nat)
    requires n <= |entries|
    requires DrawsFromListing(closeMatches)
    ensures var r := IconErrors(entries, files, closeMatches, n);
            r.Ok? ==>
              forall k :: 0 <= k < |r.value| && r.value[k].suggestion.Some? ==>
                r.value[k].suggestion.value in files && JStr(r.value[k].suggestion.value) != r.value[k].icon
  {
    if n > 0 {
      SuggestionFromListing(entries, files, closeMatches, n - 1);
      var prefix := IconErrors(entries, files, closeMatches, n - 1);
      var r := IconErrors(entries, files, closeMatches, n);
      var e := entries[n - 1];
      if prefix.Ok? && MissingIcon(e, files) {
        var rec := IconRecordFor(e, files, closeMatches);
        if rec.Ok? {
          assert r == Ok(prefix.value + [rec.value]);
          if rec.value.suggestion.Some? {
            var s := rec.value.suggestion.value;
            assert s in closeMatches(Icon(e), files).value;
            assert s in files;
          }
          forall k | 0 <= k < |r.value| && r.value[k].suggestion.Some?
            ensures r.value[k].suggestion.value in files && JStr(r.value[k].suggestion.value) != r.value[k].icon
          {
            if k < |prefix.value| {
              assert r.value[k] == prefix.value[k];
            } else {
              assert r.value[k] == rec.value;
            }
          }
        }
      } else if prefix.Ok? {
        assert r == prefix;
      }
    }
  }

  lemma {:induction false} UsedIconsMembers(entries: seq<Entry>, v: Json)
    ensures v in UsedIcons(entries) <==>
      exists i :: 0 <= i < |entries| && Truthy(Icon(entries[i])) && Icon(entries[i]) == v
  {
    if entries != [] {
      UsedIconsMembers(entries[1..], v);
      if exists i :: 0 <= i < |entries| && Truthy(Icon(entries[i])) && Icon(entries[i]) == v {
        var i :| 0 <= i < |entries| && Truthy(Icon(entries[i])) && Icon(entries[i]) == v;
        if i > 0 {
          assert entries[1..][i - 1] == entries[i];
        }
      }
      if exists j :: 0 <= j < |entries[1..]| && Truthy(Icon(entries[1..][j])) && Icon(entries[1..][j]) == v {
        var j :| 0 <= j < |entries[1..]| && Truthy(Icon(entries[1..][j])) && Icon(entries[1..][j]) == v;
        assert entries[j + 1] == entries[1..][j];
      }
    }
  }

  /** A listed file is unused exactly when no entry's truthy icon names it. */
  lemma UnusedIconsExact(entries: seq<Entry>, files: seq<string>, f: string)
    ensures f in UnusedIcons(entries, files) <==>
      f in files && forall i :: 0 <= i < |entries| && Truthy(Icon(entries[i])) ==> Icon(entries[i]) != JStr(f)
  {
    UsedIconsMembers(entries, JStr(f));
  }
}

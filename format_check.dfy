/** Stage 2: the catalog must be a list whose every element is an object. */
module FormatCheck {
  import opened JsonValues

  /** The shape every later stage relies on: a list of objects. */
  predicate IsCatalog(config: Json) {
    config.JArray? && forall i :: 0 <= i < |config.items| ==> config.items[i].JObject?
  }

  /** What the format check reports: success, a value that is not a list,
      or the index of the first element that is not an object. */
  datatype FormatVerdict = WellFormed | NotAList | EntryNotAnObject(index: nat)

  /** `validate_json_format`: stops at the first element that is not an
      object and reports its index. */
  method ValidateJsonFormat(config: Json) returns (verdict: FormatVerdict)
    ensures verdict.WellFormed? <==> IsCatalog(config)
    ensures verdict.NotAList? <==> !config.JArray?
    ensures verdict.EntryNotAnObject? ==>
      && config.JArray?
      && verdict.index < |config.items|
      && !config.items[verdict.index].JObject?
      && forall j :: 0 <= j < verdict.index ==> config.items[j].JObject?
  {
    if !config.JArray? {
      return NotAList;
    }
    var items := config.items;
    for i := 0 to |items|
      invariant forall j :: 0 <= j < i ==> items[j].JObject?
    {
      if !items[i].JObject? {
        return EntryNotAnObject(i);
      }
    }
    return WellFormed;
  }

  /** The entries of a catalog, as the later stages read them. */
  function EntriesOf(config: Json): (entries: seq<Entry>)
    requires IsCatalog(config)
    ensures |entries| == |config.items|
    ensures forall i :: 0 <= i < |entries| ==> config.items[i] == JObject(entries[i])
  {
    seq(|config.items|, i requires 0 <= i < |config.items| => config.items[i].fields)
  }

  /** The list of entries as one JSON value, the instance the whole-catalog
      schema validation is given. */
  function CatalogJson(entries: seq<Entry>): (config: Json)
    ensures IsCatalog(config)
    ensures EntriesOf(config) == entries
  {
    JArray(seq(|entries|, i requires 0 <= i < |entries| => JObject(entries[i])))
  }

  /** A catalog is exactly the list of its entries. */
  lemma CatalogOfEntries(config: Json)
    requires IsCatalog(config)
    ensures CatalogJson(EntriesOf(config)) == config
  {
  }
}

/** Stage 3: no two entries may carry the same truthy `id`. Entries whose
    `id` is missing or falsy are exempt. */
module DuplicateIds {
  import opened JsonValues

  /** `entry.get("id")`. */
  function Id(e: Entry): Json {
    Get(e, "id", JNull)
  }

  /** The list `ids`: the truthy ids, in entry order. */
  function TruthyIds(entries: seq<Entry>): (ids: seq<Json>)
    ensures |ids| <= |entries|
    ensures forall k :: 0 <= k < |ids| ==> Truthy(ids[k])
  {
    if entries == [] then []
    else (if Truthy(Id(entries[0])) then [Id(entries[0])] else []) + TruthyIds(entries[1..])
  }

  /** `ids.count(k)`, where `==` identifies values with the same Canon. */
  function CountKey(ids: seq<Json>, k: Json): (c: nat)
    ensures c <= |ids|
  {
    if ids == [] then 0
    else (if Canon(ids[0]) == k then 1 else 0) + CountKey(ids[1..], k)
  }

  /** Index `i` holds the first id equal to `ids[i]`: the one `set(ids)` keeps. */
  predicate FirstOfKey(ids: seq<Json>, i: nat)
    requires i < |ids|
  {
    forall j :: 0 <= j < i ==> Canon(ids[j]) != Canon(ids[i])
  }

  /** `[id for id in set(ids) if ids.count(id) > 1]`, as a set: the order in
      which a Python set is iterated is not part of the result's meaning. */
  function Duplicates(ids: seq<Json>): (d: set<Json>)
    ensures forall v :: v in d ==> v in ids && CountKey(ids, Canon(v)) > 1
  {
    set i | 0 <= i < |ids| && FirstOfKey(ids, i) && CountKey(ids, Canon(ids[i])) > 1 :: ids[i]
  }

  /** `validate_duplicate_ids`. Building `set(ids)` raises TypeError when a
      truthy id is a list or an object. */
  function ValidateDuplicateIds(entries: seq<Entry>): (r: Result<set<Json>>)
    ensures r.Err? ==> r.error == TypeError
    ensures r.Ok? ==> forall v :: v in r.value ==>
      Truthy(v) && Hashable(v) && CountKey(TruthyIds(entries), Canon(v)) > 1
  {
    var ids := TruthyIds(entries);
    if exists v :: v in ids && !Hashable(v) then Err(TypeError) else Ok(Duplicates(ids))
  }

  /** The ids collected are exactly the truthy `id` values of the entries. */
  lemma {:induction false} TruthyIdsMembers(entries: seq<Entry>, v: Json)
    ensures v in TruthyIds(entries) <==>
      exists i :: 0 <= i < |entries| && Truthy(Id(entries[i])) && Id(entries[i]) == v
  {
    if entries != [] {
      TruthyIdsMembers(entries[1..], v);
      if exists i :: 0 <= i < |entries| && Truthy(Id(entries[i])) && Id(entries[i]) == v {
        var i :| 0 <= i < |entries| && Truthy(Id(entries[i])) && Id(entries[i]) == v;
        if i > 0 {
          assert entries[1..][i - 1] == entries[i];
        }
      }
      if exists j :: 0 <= j < |entries[1..]| && Truthy(Id(entries[1..][j])) && Id(entries[1..][j]) == v {
        var j :| 0 <= j < |entries[1..]| && Truthy(Id(entries[1..][j])) && Id(entries[1..][j]) == v;
        assert entries[j + 1] == entries[1..][j];
      }
    }
  }

  lemma {:induction false} TruthyIdsAppend(a: seq<Entry>, b: seq<Entry>)
    ensures TruthyIds(a + b) == TruthyIds(a) + TruthyIds(b)
  {
    if a != [] {
      assert (a + b)[1..] == a[1..] + b;
      TruthyIdsAppend(a[1..], b);
    } else {
      assert a + b == b;
    }
  }

  /** The validator fails with TypeError exactly when some entry has a
      truthy id that is a list or an object. */
  lemma UnhashableIdRaises(entries: seq<Entry>)
    ensures ValidateDuplicateIds(entries).Err? <==>
      exists i :: 0 <= i < |entries| && Truthy(Id(entries[i])) && !Hashable(Id(entries[i]))
    ensures ValidateDuplicateIds(entries).Err? ==> ValidateDuplicateIds(entries).error == TypeError
  {
    if exists i :: 0 <= i < |entries| && Truthy(Id(entries[i])) && !Hashable(Id(entries[i])) {
      var i :| 0 <= i < |entries| && Truthy(Id(entries[i])) && !Hashable(Id(entries[i]));
      TruthyIdsMembers(entries, Id(entries[i]));
    }
    if exists v :: v in TruthyIds(entries) && !Hashable(v) {
      var v :| v in TruthyIds(entries) && !Hashable(v);
      TruthyIdsMembers(entries, v);
    }
  }

  lemma {:induction false} CountPositive(ids: seq<Json>, k: Json)
    ensures CountKey(ids, k) > 0 <==> exists i :: 0 <= i < |ids| && Canon(ids[i]) == k
  {
    if ids != [] {
      CountPositive(ids[1..], k);
      if exists i :: 0 <= i < |ids| && Canon(ids[i]) == k {
        var i :| 0 <= i < |ids| && Canon(ids[i]) == k;
        if i > 0 {
          assert Canon(ids[1..][i - 1]) == k;
        }
      }
      if exists j :: 0 <= j < |ids[1..]| && Canon(ids[1..][j]) == k {
        var j :| 0 <= j < |ids[1..]| && Canon(ids[1..][j]) == k;
        assert Canon(ids[j + 1]) == k;
      }
    }
  }

  /** An id occurs more than once exactly when two positions hold it. */
  lemma {:induction false} CountAboveOne(ids: seq<Json>, k: Json)
    ensures CountKey(ids, k) > 1 <==>
      exists i, j :: 0 <= i < j < |ids| && Canon(ids[i]) == k && Canon(ids[j]) == k
  {
    if ids != [] {
      var tail := ids[1..];
      CountAboveOne(tail, k);
      CountPositive(tail, k);
      if exists i, j :: 0 <= i < j < |ids| && Canon(ids[i]) == k && Canon(ids[j]) == k {
        var i, j :| 0 <= i < j < |ids| && Canon(ids[i]) == k && Canon(ids[j]) == k;
        assert Canon(tail[j - 1]) == k;
        if i > 0 {
          assert Canon(tail[i - 1]) == k;
        }
      }
      if CountKey(ids, k) > 1 {
        if Canon(ids[0]) == k {
          var j :| 0 <= j < |tail| && Canon(tail[j]) == k;
          assert Canon(ids[j + 1]) == k;
        } else {
          var i, j :| 0 <= i < j < |tail| && Canon(tail[i]) == k && Canon(tail[j]) == k;
          assert Canon(ids[i + 1]) == k && Canon(ids[j + 1]) == k;
        }
      }
    }
  }

  /** Every id has a first occurrence, the representative `set(ids)` keeps. */
  lemma {:induction false} FirstOccurrence(ids: seq<Json>, i: nat)
    requires i < |ids|
    ensures exists f :: 0 <= f <= i && FirstOfKey(ids, f) && Canon(ids[f]) == Canon(ids[i])
    decreases i
  {
    if !FirstOfKey(ids, i) {
      var j :| 0 <= j < i && Canon(ids[j]) == Canon(ids[i]);
      FirstOccurrence(ids, j);
    }
  }

  /** Every id that occurs more than once is reported. */
  lemma DuplicatesComplete(ids: seq<Json>, i: nat)
    requires i < |ids|
    requires CountKey(ids, Canon(ids[i])) > 1
    ensures exists v :: v in Duplicates(ids) && Canon(v) == Canon(ids[i])
  {
    FirstOccurrence(ids, i);
    var f :| 0 <= f <= i && FirstOfKey(ids, f) && Canon(ids[f]) == Canon(ids[i]);
    assert ids[f] in Duplicates(ids);
  }

  /** Each duplicated id is reported once: no two reported values are equal. */
  lemma DuplicatesReportedOnce(ids: seq<Json>, v: Json, w: Json)
    requires v in Duplicates(ids) && w in Duplicates(ids)
    requires Canon(v) == Canon(w)
    ensures v == w
  {
  }

  /** Nothing is reported exactly when the truthy ids are pairwise distinct. */
  lemma NoDuplicatesIff(ids: seq<Json>)
    ensures Duplicates(ids) == {} <==>
      forall i, j :: 0 <= i < j < |ids| ==> Canon(ids[i]) != Canon(ids[j])
  {
    if Duplicates(ids) != {} {
      var v :| v in Duplicates(ids);
      CountAboveOne(ids, Canon(v));
    }
    if !forall i, j :: 0 <= i < j < |ids| ==> Canon(ids[i]) != Canon(ids[j]) {
      var i, j :| 0 <= i < j < |ids| && Canon(ids[i]) == Canon(ids[j]);
      CountAboveOne(ids, Canon(ids[i]));
      DuplicatesComplete(ids, i);
    }
  }

  /** An entry whose id is missing or falsy never changes the outcome. */
  lemma FalsyIdExempt(a: seq<Entry>, e: Entry, b: seq<Entry>)
    requires !Truthy(Id(e))
    ensures ValidateDuplicateIds(a + [e] + b) == ValidateDuplicateIds(a + b)
  {
    TruthyIdsAppend(a + [e], b);
    TruthyIdsAppend(a, [e]);
    TruthyIdsAppend(a, b);
    assert TruthyIds([e]) == [];
    assert TruthyIds(a + [e] + b) == TruthyIds(a + b);
  }
}

/** `save_to_mongodb`: every record is upserted by `full_name` with `$set`.
    All records carry the same fields, so `$set` replaces the stored
    document's fields wholesale; the collection is modelled as a map from
    `full_name` to record. */
module Store {
  import opened Wrappers
  import opened Records

  type Documents = map<string, BotRecord>

  /** The keys a list of records upserts. */
  function KeysOf(data: seq<BotRecord>): set<string> {
    set i | 0 <= i < |data| :: data[i].fullName
  }

  lemma KeysOfSnoc(data: seq<BotRecord>)
    requires |data| > 0
    ensures KeysOf(data) == KeysOf(data[..|data| - 1]) + {data[|data| - 1].fullName}
  {
  }

  /** The position of the last record with key `k`. */
  function LastIndexWithKey(data: seq<BotRecord>, k: string): (r: Option<nat>)
    ensures r.Some? <==> k in KeysOf(data)
    ensures r.Some? ==> r.value < |data| && data[r.value].fullName == k
    ensures r.Some? ==> forall j :: r.value < j < |data| ==> data[j].fullName != k
    decreases |data|
  {
    if |data| == 0 then None
    else
      KeysOfSnoc(data);
      if data[|data| - 1].fullName == k then Some(|data| - 1)
      else LastIndexWithKey(data[..|data| - 1], k)
  }

  /** The collection after `update_one(..., upsert=True)` for each record
      in order. */
  function UpsertAll(docs: Documents, data: seq<BotRecord>): (r: Documents)
    ensures r.Keys == docs.Keys + KeysOf(data)
    ensures forall k :: k in docs && k !in KeysOf(data) ==> r[k] == docs[k]
    decreases |data|
  {
    if |data| == 0 then docs
    else
      KeysOfSnoc(data);
      var last := data[|data| - 1];
      UpsertAll(docs, data[..|data| - 1])[last.fullName := last]
  }

  /** Under an upserted key the collection holds the last record with that key. */
  lemma {:induction false} UpsertLastWins(docs: Documents, data: seq<BotRecord>, k: string)
    requires k in KeysOf(data)
    ensures LastIndexWithKey(data, k).Some?
    ensures UpsertAll(docs, data)[k] == data[LastIndexWithKey(data, k).value]
    decreases |data|
  {
    var n := |data| - 1;
    KeysOfSnoc(data);
    if data[n].fullName != k {
      UpsertLastWins(docs, data[..n], k);
      assert data[..n][LastIndexWithKey(data[..n], k).value] == data[LastIndexWithKey(data, k).value];
    }
  }

  /** How many `update_one` calls take effect when the call at index
      `fault` (if any) raises: the loop stops there and the error is
      swallowed. */
  function Reached(fault: Option<nat>, n: nat): (m: nat)
    ensures m <= n
    ensures fault.None? ==> m == n
    ensures fault.Some? && fault.value < n ==> m == fault.value
    ensures fault.Some? && fault.value >= n ==> m == n
  {
    match fault
    case None => n
    case Some(f) => if f < n then f else n
  }

  /** The collection once `save_to_mongodb(data)` returns. */
  function SaveResult(collection: Option<Documents>, data: seq<BotRecord>, fault: Option<nat>): (after: Option<Documents>)
    ensures after.None? <==> collection.None?
  {
    match collection
    case None => None
    case Some(docs) => Some(UpsertAll(docs, data[..Reached(fault, |data|)]))
  }

  /** `save_to_mongodb(data)`: nothing without a collection; otherwise the
      records are upserted in order until the first failing call. */
  method SaveToMongo(collection: Option<Documents>, data: seq<BotRecord>, fault: Option<nat>)
    returns (after: Option<Documents>)
    ensures collection.None? ==> after.None?
    ensures collection.Some? ==> after == Some(UpsertAll(collection.value, data[..Reached(fault, |data|)]))
  {
    if collection.None? {
      return None;
    }
    var docs := collection.value;
    var n := Reached(fault, |data|);
    var i := 0;
    while i < n
      invariant 0 <= i <= n
      invariant docs == UpsertAll(collection.value, data[..i])
    {
      assert data[..i + 1][..i] == data[..i];
      docs := docs[data[i].fullName := data[i]];
      i := i + 1;
    }
    return Some(docs);
  }

  /** `s` and `m` hold the same documents under every key outside `keys`. */
  ghost predicate AgreeOutside(s: Documents, m: Documents, keys: set<string>) {
    && (forall k :: k in m && k !in keys ==> k in s)
    && (forall k :: k in s && k !in keys ==> k in m && s[k] == m[k])
  }

  /** Upserting only touches the keys of the records upserted. */
  lemma UpsertTouchesOnlyItsKeys(docs: Documents, data: seq<BotRecord>)
    ensures AgreeOutside(UpsertAll(docs, data), docs, KeysOf(data))
  {
  }

  /** The result of an upsert does not depend on what was stored under the
      upserted keys before: a full re-save repairs any earlier partial one. */
  lemma UpsertOverwrites(s: Documents, m: Documents, data: seq<BotRecord>)
    requires AgreeOutside(s, m, KeysOf(data))
    ensures UpsertAll(s, data) == UpsertAll(m, data)
  {
    var a := UpsertAll(s, data);
    var b := UpsertAll(m, data);
    UpsertSameKeys(s, m, data);
    forall k | k in a
      ensures a[k] == b[k]
    {
      UpsertSameValue(s, m, data, k);
    }
  }

  lemma UpsertSameKeys(s: Documents, m: Documents, data: seq<BotRecord>)
    requires AgreeOutside(s, m, KeysOf(data))
    ensures UpsertAll(s, data).Keys == UpsertAll(m, data).Keys
  {
  }

  lemma UpsertSameValue(s: Documents, m: Documents, data: seq<BotRecord>, k: string)
    requires AgreeOutside(s, m, KeysOf(data))
    requires k in UpsertAll(s, data) && k in UpsertAll(m, data)
    ensures UpsertAll(s, data)[k] == UpsertAll(m, data)[k]
  {
    if k !in KeysOf(data) {
      assert UpsertAll(s, data)[k] == s[k];
    } else {
      UpsertLastWins(s, data, k);
      UpsertLastWins(m, data, k);
    }
  }

  /** Saving the same records twice is saving them once. */
  lemma UpsertIdempotent(docs: Documents, data: seq<BotRecord>)
    ensures UpsertAll(UpsertAll(docs, data), data) == UpsertAll(docs, data)
  {
    UpsertTouchesOnlyItsKeys(docs, data);
    UpsertOverwrites(UpsertAll(docs, data), docs, data);
  }

  /** Re-saving records whose keys are all stored already adds no document. */
  lemma UpsertKeepsCount(docs: Documents, data: seq<BotRecord>)
    requires KeysOf(data) <= docs.Keys
    ensures |UpsertAll(docs, data)| == |docs|
  {
    assert UpsertAll(docs, data).Keys == docs.Keys;
  }
}

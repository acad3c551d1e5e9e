/**
  What `loadRequests` (frontend/web/src/App.tsx) derives from the table: one
  view entry per index id whose record is present and decodes, in index
  order, then ordered newest first.
 */
module Loading {
  import opened Records

  /** The view entry an id contributes: none when the record is missing or
      does not decode. */
  function Entry(records: map<string, StoredValue>, id: string): seq<SupportRequest>
  {
    if id in records && records[id].Valid? then [Materialize(id, records[id].rec)] else []
  }

  /** The list built by the loop over the index ids, before sorting. */
  function Collect(records: map<string, StoredValue>, ids: seq<string>): (list: seq<SupportRequest>)
    ensures |list| <= |ids|
    decreases |ids|
  {
    if ids == [] then [] else Collect(records, ids[..|ids| - 1]) + Entry(records, ids[|ids| - 1])
  }

  /** The index ids whose records are present and decode, in index order. */
  function DecodableIds(records: map<string, StoredValue>, ids: seq<string>): seq<string>
    decreases |ids|
  {
    if ids == [] then []
    else
      var last := ids[|ids| - 1];
      DecodableIds(records, ids[..|ids| - 1])
        + (if last in records && records[last].Valid? then [last] else [])
  }

  function IdsOf(list: seq<SupportRequest>): (ids: seq<string>)
    ensures |ids| == |list|
    ensures forall k :: 0 <= k < |list| ==> ids[k] == list[k].id
  {
    seq(|list|, k requires 0 <= k < |list| => list[k].id)
  }

  /** `e` is exactly what the record stored under its id decodes to. */
  ghost predicate DecodesTo(records: map<string, StoredValue>, e: SupportRequest)
  {
    e.id in records && records[e.id].Valid? && e == Materialize(e.id, records[e.id].rec)
  }

  lemma {:induction false} CollectAppend(records: map<string, StoredValue>, a: seq<string>, b: seq<string>)
    ensures Collect(records, a + b) == Collect(records, a) + Collect(records, b)
    decreases |b|
  {
    if b == [] {
      assert a + b == a;
    } else {
      var b' := b[..|b| - 1];
      assert (a + b)[..|a + b| - 1] == a + b';
      assert (a + b)[|a + b| - 1] == b[|b| - 1];
      CollectAppend(records, a, b');
    }
  }

  /** Loading yields one entry per decodable id, the entries carry those ids
      in index order, and so their number is the number of decodable ids. */
  lemma {:induction false} CollectIds(records: map<string, StoredValue>, ids: seq<string>)
    ensures IdsOf(Collect(records, ids)) == DecodableIds(records, ids)
    ensures |Collect(records, ids)| == |DecodableIds(records, ids)|
    decreases |ids|
  {
    if ids != [] {
      var front := ids[..|ids| - 1];
      CollectIds(records, front);
      assert IdsOf(Collect(records, ids)) == IdsOf(Collect(records, front)) + IdsOf(Entry(records, ids[|ids| - 1]));
    }
  }

  /** An entry is in the loaded list exactly when its id is in the index and
      it is what the stored record under that id decodes to. */
  lemma {:induction false} CollectMembership(records: map<string, StoredValue>, ids: seq<string>, e: SupportRequest)
    ensures e in Collect(records, ids) <==> e.id in ids && DecodesTo(records, e)
    decreases |ids|
  {
    if ids != [] {
      var front := ids[..|ids| - 1];
      var last := ids[|ids| - 1];
      CollectMembership(records, front, e);
      assert ids == front + [last];
      assert e.id in ids <==> e.id in front || e.id == last;
    }
  }

  /** Each loaded entry carries the index id it was read under and the
      fields of the record stored there; a missing status reads as pending. */
  lemma LoadedEntryFields(records: map<string, StoredValue>, ids: seq<string>, e: SupportRequest)
    requires e in Collect(records, ids)
    ensures e.id in ids && e.id in records && records[e.id].Valid?
    ensures var rec := records[e.id].rec;
      && e.encryptedContent == rec.content && e.timestamp == rec.timestamp
      && e.author == rec.author && e.category == rec.category && e.matchedWith == rec.matchedWith
      && e.status == (if rec.status.Some? then rec.status.value else Pending)
  {
    CollectMembership(records, ids, e);
  }

  /** Conversely, every index id whose record decodes is loaded. */
  lemma DecodableIdIsLoaded(records: map<string, StoredValue>, ids: seq<string>, id: string)
    requires id in ids && id in records && records[id].Valid?
    ensures Materialize(id, records[id].rec) in Collect(records, ids)
  {
    CollectMembership(records, ids, Materialize(id, records[id].rec));
  }

  /** Only the records named by the ids matter to a load. */
  lemma {:induction false} CollectFrame(r1: map<string, StoredValue>, r2: map<string, StoredValue>, ids: seq<string>)
    requires forall id :: id in ids ==> (id in r1 <==> id in r2)
    requires forall id :: id in ids && id in r1 ==> r1[id] == r2[id]
    ensures Collect(r1, ids) == Collect(r2, ids)
    decreases |ids|
  {
    if ids != [] {
      var front := ids[..|ids| - 1];
      assert forall id :: id in front ==> id in ids;
      CollectFrame(r1, r2, front);
    }
  }

  // ---------------------------------------------------------------------
  // Newest first: `list.sort((a, b) => b.timestamp - a.timestamp)`
  // ---------------------------------------------------------------------

  ghost predicate NewestFirst(s: seq<SupportRequest>)
  {
    forall i, j :: 0 <= i < j < |s| ==> s[i].timestamp >= s[j].timestamp
  }

  function InsertByTime(x: SupportRequest, s: seq<SupportRequest>): (r: seq<SupportRequest>)
    requires NewestFirst(s)
    ensures NewestFirst(r)
    ensures multiset(r) == multiset(s) + multiset{x}
    decreases |s|
  {
    if s == [] || x.timestamp >= s[0].timestamp then
      [x] + s
    else
      assert NewestFirst(s[1..]);
      var rest := InsertByTime(x, s[1..]);
      assert s == [s[0]] + s[1..];
      AllAtMost(rest, s[1..], x, s[0].timestamp);
      [s[0]] + rest
  }

  /** Every entry of a permutation of `s` plus `x` is no newer than `t` when
      every entry of `s` and `x` are not. */
  lemma AllAtMost(r: seq<SupportRequest>, s: seq<SupportRequest>, x: SupportRequest, t: int)
    requires multiset(r) == multiset(s) + multiset{x}
    requires forall k :: 0 <= k < |s| ==> s[k].timestamp <= t
    requires x.timestamp <= t
    ensures forall j :: 0 <= j < |r| ==> r[j].timestamp <= t
  {
    forall j | 0 <= j < |r|
      ensures r[j].timestamp <= t
    {
      assert r[j] in multiset(r);
      if r[j] != x {
        assert r[j] in multiset(s);
        var k :| 0 <= k < |s| && s[k] == r[j];
      }
    }
  }

  /** An ordering of `s` newest first: an insertion sort that puts each
      entry before the entries of equal timestamp behind it, so that, like the
      browser's stable `Array.prototype.sort`, it keeps index order among
      equal timestamps (see `SortIsStable`). */
  function SortNewestFirst(s: seq<SupportRequest>): (r: seq<SupportRequest>)
    ensures NewestFirst(r)
    ensures multiset(r) == multiset(s)
    decreases |s|
  {
    if s == [] then []
    else
      assert s == [s[0]] + s[1..];
      InsertByTime(s[0], SortNewestFirst(s[1..]))
  }

  /** The entries of `s` with timestamp `t`, in their order in `s`. */
  function AtTime(s: seq<SupportRequest>, t: int): (r: seq<SupportRequest>)
    ensures |r| <= |s|
    ensures forall k :: 0 <= k < |r| ==> r[k].timestamp == t
    decreases |s|
  {
    if s == [] then [] else (if s[0].timestamp == t then [s[0]] else []) + AtTime(s[1..], t)
  }

  /** Inserting `x` puts it in front of the entries sharing its timestamp
      and leaves the relative order of every other timestamp alone. */
  lemma {:induction false} InsertKeepsTies(x: SupportRequest, s: seq<SupportRequest>, t: int)
    requires NewestFirst(s)
    ensures AtTime(InsertByTime(x, s), t) == (if x.timestamp == t then [x] else []) + AtTime(s, t)
    decreases |s|
  {
    if s == [] || x.timestamp >= s[0].timestamp {
      assert ([x] + s)[1..] == s;
    } else {
      assert NewestFirst(s[1..]);
      InsertKeepsTies(x, s[1..], t);
      assert ([s[0]] + InsertByTime(x, s[1..]))[1..] == InsertByTime(x, s[1..]);
    }
  }

  /** The sort is stable: for every timestamp, the entries carrying it keep
      the order they had in the input. */
  lemma {:induction false} SortIsStable(s: seq<SupportRequest>, t: int)
    ensures AtTime(SortNewestFirst(s), t) == AtTime(s, t)
    decreases |s|
  {
    if s != [] {
      SortIsStable(s[1..], t);
      InsertKeepsTies(s[0], SortNewestFirst(s[1..]), t);
    }
  }

  /** The list `loadRequests` stores: the decodable entries named by the
      index, newest first, with equal timestamps in index order. */
  ghost predicate IsLoadOf(list: seq<SupportRequest>, records: map<string, StoredValue>, index: IndexSlot)
  {
    && NewestFirst(list)
    && multiset(list) == multiset(Collect(records, KeysOf(index)))
    && forall t :: AtTime(list, t) == AtTime(Collect(records, KeysOf(index)), t)
  }

  /** An absent or unparsable index loads as the empty list. */
  lemma LoadOfLostIndexIsEmpty(list: seq<SupportRequest>, records: map<string, StoredValue>, index: IndexSlot)
    requires !index.IndexOk?
    requires IsLoadOf(list, records, index)
    ensures list == []
  {
    assert |multiset(list)| == 0;
  }

  /** The single-record scenario: index `["a"]` naming a pending record with
      no peer loads as one pending request without a peer. */
  lemma SingleRecordScenario()
    ensures var rec := StoredRecord("FHE-xyz", 1000, "0x1", "PhD Stress", Some(Pending), None);
      Collect(map["a" := Valid(rec)], ["a"])
        == [SupportRequest("a", "FHE-xyz", 1000, "0x1", "PhD Stress", Pending, None)]
  {
    assert ["a"][..0] == [];
  }

  // ---------------------------------------------------------------------
  // Loads after the client's writes
  // ---------------------------------------------------------------------

  /** After `submitRequest` writes a fresh record and appends its id, the
      load yields the previous entries plus the new one. */
  lemma LoadAfterSubmit(records: map<string, StoredValue>, ids: seq<string>, id: string, rec: StoredRecord)
    requires id !in ids
    ensures Collect(records[id := Valid(rec)], ids + [id]) == Collect(records, ids) + [Materialize(id, rec)]
  {
    var r' := records[id := Valid(rec)];
    CollectAppend(r', ids, [id]);
    assert [id][..0] == [];
    CollectFrame(r', records, ids);
  }

  /** When the index did not parse, `submitRequest` replaces it by the new
      id alone: afterwards a load shows only the new request, whatever the
      earlier records were. */
  lemma LoadAfterSubmitOverLostIndex(records: map<string, StoredValue>, index: IndexSlot, id: string, rec: StoredRecord)
    requires !index.IndexOk?
    ensures Collect(records[id := Valid(rec)], KeysOf(index) + [id]) == [Materialize(id, rec)]
  {
    assert KeysOf(index) + [id] == [id];
    assert [id][..0] == [];
  }

  /** When the index write of `submitRequest` is rejected the new record is
      an orphan: a load sees exactly what it saw before. */
  lemma LoadIgnoresOrphan(records: map<string, StoredValue>, ids: seq<string>, id: string, rec: StoredRecord)
    requires id !in ids
    ensures Collect(records[id := Valid(rec)], ids) == Collect(records, ids)
  {
    CollectFrame(records[id := Valid(rec)], records, ids);
  }

  /** Rewriting a decodable record with another decodable record (what
      `matchRequest` and `resolveRequest` do) keeps the loaded entries in
      place and replaces exactly those with that id. */
  lemma {:induction false} LoadAfterUpdate(records: map<string, StoredValue>, ids: seq<string>, id: string, rec: StoredRecord)
    requires id in records && records[id].Valid?
    ensures |Collect(records[id := Valid(rec)], ids)| == |Collect(records, ids)|
    ensures forall k :: 0 <= k < |Collect(records, ids)| ==>
      Collect(records[id := Valid(rec)], ids)[k] ==
        (if Collect(records, ids)[k].id == id then Materialize(id, rec) else Collect(records, ids)[k])
    decreases |ids|
  {
    if ids != [] {
      LoadAfterUpdate(records, ids[..|ids| - 1], id, rec);
    }
  }
}

/** The batch store of the upload app (`fta_vali.py`): a dictionary from batch
    id to the list of per-invoice results, kept across reruns. Uploading files
    adds a batch, a button deletes one batch or clears them all, and the export
    flattens every batch into one table with a "Batch_ID" column. A Python
    dictionary keeps its keys in insertion order, so the store is a sequence
    of batches. */
module Batches {
  import opened Wrappers
  import opened Calendar
  import SimpleValidator

  datatype Batch<R> = Batch(id: string, results: seq<R>)

  /** `st.session_state.batches`, in insertion order. */
  type Store<R> = seq<Batch<R>>

  /** The keys of the dictionary, in order. */
  function Ids<R>(s: Store<R>): (ids: seq<string>)
    ensures |ids| == |s|
    ensures forall k :: 0 <= k < |s| ==> ids[k] == s[k].id
  {
    seq(|s|, k requires 0 <= k < |s| => s[k].id)
  }

  /** A dictionary holds each key once. */
  predicate DistinctIds<R>(s: Store<R>)
  {
    forall j, k :: 0 <= j < k < |s| ==> s[j].id != s[k].id
  }

  /** `batches.get(id)` */
  function Lookup<R>(s: Store<R>, id: string): (r: Option<seq<R>>)
    ensures r.None? <==> id !in Ids(s)
  {
    if |s| == 0 then None
    else if s[|s| - 1].id == id then Some(s[|s| - 1].results)
    else
      var r := Lookup(s[..|s| - 1], id);
      assert Ids(s[..|s| - 1]) == Ids(s)[..|s| - 1];
      r
  }

  /** Every batch with key `id` gets `results`; the order is unchanged. */
  function Replace<R>(s: Store<R>, id: string, results: seq<R>): (r: Store<R>)
    ensures Ids(r) == Ids(s)
  {
    if |s| == 0 then []
    else
      var b := s[|s| - 1];
      Replace(s[..|s| - 1], id, results) + [if b.id == id then Batch(id, results) else b]
  }

  /** `batches[id] = results`: an existing key keeps its place and gets the new
      value, a new key goes last. */
  function Put<R>(s: Store<R>, id: string, results: seq<R>): Store<R>
  {
    if id in Ids(s) then Replace(s, id, results) else s + [Batch(id, results)]
  }

  /** `batches.pop(id, None)`: removes the key, or does nothing when it is
      absent. */
  function Pop<R>(s: Store<R>, id: string): (r: Store<R>)
    ensures id !in Ids(r)
    ensures id !in Ids(s) ==> r == s
  {
    if |s| == 0 then []
    else
      var init := Pop(s[..|s| - 1], id);
      var b := s[|s| - 1];
      assert Ids(s[..|s| - 1]) == Ids(s)[..|s| - 1];
      if b.id == id then init else init + [b]
  }

  /** `batches = {}` */
  function Clear<R>(s: Store<R>): (r: Store<R>)
    ensures forall id :: Lookup(r, id).None?
  {
    []
  }

  /** A result row with the "Batch_ID" column added. */
  datatype Tagged<R> = Tagged(row: R, batchId: string)

  /** The rows of one batch, each tagged with the batch's id. */
  function Tag<R>(b: Batch<R>): seq<Tagged<R>>
  {
    seq(|b.results|, k requires 0 <= k < |b.results| => Tagged(b.results[k], b.id))
  }

  /** The table `generate_csv_all` builds: the batches in order, the rows of
      each batch in order, every row tagged with its batch. */
  function Flatten<R>(s: Store<R>): seq<Tagged<R>>
  {
    if |s| == 0 then [] else Flatten(s[..|s| - 1]) + Tag(s[|s| - 1])
  }

  /** The number of result rows in the store. */
  function RowCount<R>(s: Store<R>): nat
  {
    if |s| == 0 then 0 else RowCount(s[..|s| - 1]) + |s[|s| - 1].results|
  }

  /** The two nested loops of `generate_csv_all`. */
  method ExportAll<R>(s: Store<R>) returns (rows: seq<Tagged<R>>)
    ensures rows == Flatten(s)
  {
    rows := [];
    var i := 0;
    while i < |s|
      invariant 0 <= i <= |s|
      invariant rows == Flatten(s[..i])
    {
      var b := s[i];
      var j := 0;
      while j < |b.results|
        invariant 0 <= j <= |b.results|
        invariant rows == Flatten(s[..i]) + Tag(b)[..j]
      {
        rows := rows + [Tagged(b.results[j], b.id)];
        j := j + 1;
      }
      assert Tag(b)[..j] == Tag(b);
      assert s[..i + 1][..i] == s[..i];
      i := i + 1;
    }
    assert s[..i] == s;
  }

  /** Uploading files: one result per file, in upload order, stored under a
      fresh id. No files, no batch. `id` stands for `str(uuid.uuid4())[:8]`
      and `today` for the date of `datetime.now()`. */
  function Upload(s: Store<SimpleValidator.InvoiceResult>, id: string,
                  files: seq<(string, string)>, today: Date): Store<SimpleValidator.InvoiceResult>
  {
    if |files| == 0 then s
    else
      Put(s, id, seq(|files|, k requires 0 <= k < |files| =>
                       SimpleValidator.ValidateInvoice(files[k].0, files[k].1, today)))
  }

  // ---------------------------------------------------------------------------
  // Properties

  /** `Replace` gives `id` the new value and leaves every other key alone. */
  lemma {:induction false} ReplaceLookup<R>(s: Store<R>, id: string, results: seq<R>, other: string)
    ensures Lookup(Replace(s, id, results), other)
            == if other == id && id in Ids(s) then Some(results) else Lookup(s, other)
  {
    if |s| > 0 {
      var init := s[..|s| - 1];
      var b := s[|s| - 1];
      ReplaceLookup(init, id, results, other);
      var ri := Replace(init, id, results);
      var nb := if b.id == id then Batch(id, results) else b;
      var r := Replace(s, id, results);
      assert r == ri + [nb];
      assert r[..|r| - 1] == ri;
      assert Ids(s) == Ids(init) + [b.id];
      assert id in Ids(s) <==> id in Ids(init) || b.id == id;
    }
  }

  /** Assignment: afterwards `id` maps to the new results and every other key
      to what it mapped to before; an existing key keeps its place and a new
      one is appended; distinct keys stay distinct. */
  lemma PutSemantics<R>(s: Store<R>, id: string, results: seq<R>)
    requires DistinctIds(s)
    ensures forall other :: Lookup(Put(s, id, results), other)
                            == if other == id then Some(results) else Lookup(s, other)
    ensures Ids(Put(s, id, results)) == if id in Ids(s) then Ids(s) else Ids(s) + [id]
    ensures DistinctIds(Put(s, id, results))
  {
    var r := Put(s, id, results);
    forall other
      ensures Lookup(r, other) == if other == id then Some(results) else Lookup(s, other)
    {
      if id in Ids(s) {
        ReplaceLookup(s, id, results, other);
      } else {
        assert r[..|r| - 1] == s;
      }
    }
    assert forall k :: 0 <= k < |r| ==> r[k].id == Ids(r)[k];
    if id !in Ids(s) {
      assert Ids(r) == Ids(s) + [id];
    }
  }

  /** Deleting `id` leaves the value of every other key as it was. */
  lemma {:induction false} PopLookup<R>(s: Store<R>, id: string, other: string)
    requires other != id
    ensures Lookup(Pop(s, id), other) == Lookup(s, other)
  {
    if |s| > 0 {
      var init := s[..|s| - 1];
      var b := s[|s| - 1];
      PopLookup(init, id, other);
      var p := Pop(init, id);
      assert Pop(s, id) == if b.id == id then p else p + [b];
      if b.id != id {
        assert (p + [b])[..|p|] == p;
      }
    }
  }

  /** Deleting a key keeps the others distinct. */
  lemma {:induction false} PopDistinct<R>(s: Store<R>, id: string)
    requires DistinctIds(s)
    ensures DistinctIds(Pop(s, id))
  {
    if |s| > 0 {
      var init := s[..|s| - 1];
      var b := s[|s| - 1];
      assert DistinctIds(init);
      PopDistinct(init, id);
      PopKeepsMembers(init, id);
      var p := Pop(init, id);
      if b.id != id {
        var r := p + [b];
        forall j, k | 0 <= j < k < |r|
          ensures r[j].id != r[k].id
        {
          if k == |r| - 1 {
            assert r[j] == p[j] && p[j] in init;
            var m :| 0 <= m < |init| && init[m] == p[j];
            assert s[m] == init[m];
          } else {
            assert r[j] == p[j] && r[k] == p[k];
          }
        }
      }
    }
  }

  /** Deletion: afterwards `id` is gone, every other key maps to what it mapped
      to before, and distinct keys stay distinct. */
  lemma PopSemantics<R>(s: Store<R>, id: string)
    ensures forall other :: other != id ==> Lookup(Pop(s, id), other) == Lookup(s, other)
    ensures Lookup(Pop(s, id), id).None?
    ensures DistinctIds(s) ==> DistinctIds(Pop(s, id))
  {
    forall other | other != id
      ensures Lookup(Pop(s, id), other) == Lookup(s, other)
    {
      PopLookup(s, id, other);
    }
    if DistinctIds(s) {
      PopDistinct(s, id);
    }
  }

  /** `Pop` only ever removes batches. */
  lemma {:induction false} PopKeepsMembers<R>(s: Store<R>, id: string)
    ensures forall k :: 0 <= k < |Pop(s, id)| ==> Pop(s, id)[k] in s
  {
    if |s| > 0 {
      var init := s[..|s| - 1];
      PopKeepsMembers(init, id);
      assert forall x :: x in init ==> x in s;
    }
  }

  /** The rows of the export, read back by batch: row `k` lies in some batch of
      the store, tagged with that batch's id; and there is one row per result. */
  lemma {:induction false} FlattenRows<R>(s: Store<R>)
    ensures |Flatten(s)| == RowCount(s)
    ensures forall k :: 0 <= k < |Flatten(s)| ==>
              exists b :: b in s && Flatten(s)[k].batchId == b.id && Flatten(s)[k].row in b.results
  {
    if |s| > 0 {
      var init := s[..|s| - 1];
      var b := s[|s| - 1];
      FlattenRows(init);
      forall k | 0 <= k < |Flatten(s)|
        ensures exists c :: c in s && Flatten(s)[k].batchId == c.id && Flatten(s)[k].row in c.results
      {
        if k < |Flatten(init)| {
          var c :| c in init && Flatten(init)[k].batchId == c.id && Flatten(init)[k].row in c.results;
          assert c in s;
        } else {
          var j := k - |Flatten(init)|;
          assert Flatten(s)[k] == Tag(b)[j];
          assert b in s;
        }
      }
    }
  }

  /** A new batch appears at the end of the export, each of its rows tagged
      with the new id. */
  lemma PutNewAppendsRows<R>(s: Store<R>, id: string, results: seq<R>)
    requires id !in Ids(s)
    ensures Flatten(Put(s, id, results)) == Flatten(s) + Tag(Batch(id, results))
  {
    var r := Put(s, id, results);
    assert r[..|r| - 1] == s;
  }

  /** The export rows that do not carry the id `id`. */
  function Without<R>(rows: seq<Tagged<R>>, id: string): (r: seq<Tagged<R>>)
    ensures forall k :: 0 <= k < |r| ==> r[k].batchId != id && r[k] in rows
  {
    if |rows| == 0 then []
    else
      var init := Without(rows[..|rows| - 1], id);
      if rows[|rows| - 1].batchId == id then init else init + [rows[|rows| - 1]]
  }

  lemma {:induction false} WithoutAppend<R>(a: seq<Tagged<R>>, b: seq<Tagged<R>>, id: string)
    ensures Without(a + b, id) == Without(a, id) + Without(b, id)
  {
    if |b| > 0 {
      var init := b[..|b| - 1];
      WithoutAppend(a, init, id);
      assert (a + b)[..|a + b| - 1] == a + init;
    } else {
      assert a + b == a;
    }
  }

  lemma {:induction false} WithoutTag<R>(rows: seq<Tagged<R>>, id: string)
    requires forall k :: 0 <= k < |rows| ==> rows[k].batchId == id
    ensures Without(rows, id) == []
  {
    if |rows| > 0 {
      WithoutTag(rows[..|rows| - 1], id);
    }
  }

  lemma {:induction false} WithoutOthers<R>(rows: seq<Tagged<R>>, id: string)
    requires forall k :: 0 <= k < |rows| ==> rows[k].batchId != id
    ensures Without(rows, id) == rows
  {
    if |rows| > 0 {
      WithoutOthers(rows[..|rows| - 1], id);
    }
  }

  /** Deleting a batch removes exactly its rows from the export, and the other
      rows keep their order. */
  lemma {:induction false} PopRemovesRows<R>(s: Store<R>, id: string)
    ensures Flatten(Pop(s, id)) == Without(Flatten(s), id)
  {
    if |s| > 0 {
      var init := s[..|s| - 1];
      var b := s[|s| - 1];
      PopRemovesRows(init, id);
      WithoutAppend(Flatten(init), Tag(b), id);
      var p := Pop(init, id);
      if b.id == id {
        WithoutTag(Tag(b), id);
        assert Without(Flatten(s), id) == Without(Flatten(init), id);
      } else {
        WithoutOthers(Tag(b), id);
        assert (p + [b])[..|p + [b]| - 1] == p;
      }
    }
  }

  /** An upload with files adds one batch holding one result per file, named
      after the file, in upload order; an upload without files changes
      nothing. */
  lemma UploadAddsBatch(s: Store<SimpleValidator.InvoiceResult>, id: string,
                        files: seq<(string, string)>, today: Date)
    requires DistinctIds(s)
    ensures |files| == 0 ==> Upload(s, id, files, today) == s
    ensures |files| > 0 ==>
              var r := Lookup(Upload(s, id, files, today), id);
              && r.Some? && |r.value| == |files|
              && forall k :: 0 <= k < |files| ==> r.value[k].name == files[k].0
    ensures forall other :: other != id ==> Lookup(Upload(s, id, files, today), other) == Lookup(s, other)
  {
    if |files| > 0 {
      var results := seq(|files|, k requires 0 <= k < |files| =>
                           SimpleValidator.ValidateInvoice(files[k].0, files[k].1, today));
      PutSemantics(s, id, results);
    }
  }
}

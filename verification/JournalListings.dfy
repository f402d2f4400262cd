/** The valid-time records as they are stored: listed in key order. What
    statements leave has such a listing, and it survives being encoded. */
module JournalListings {
  import opened Graphs
  import opened HistAccepts
  import opened HistBytes
  import opened HistFormat
  import opened HistRoundTrip
  import opened JournalTime
  import opened Machine
  import opened ValidTime
  import opened Values
  import opened Wrappers

  ghost predicate ListsFields(list: seq<Field>, fields: map<FieldKey, History>) {
    && FieldsAscend(list)
    && (forall f <- list :: Get(fields, (f.node, f.name)) == Some(f.history))
    && (forall k <- fields :: Field(k.0, k.1, fields[k]) in list)
  }

  ghost predicate ListsIntervals(list: seq<RelHistory>, intervals: map<u64, RelHistory>) {
    && IdsAscend(RelIds(list))
    && (forall r <- list :: Get(intervals, r.rel.id) == Some(r))
    && (forall k <- intervals :: intervals[k] in list)
  }

  ghost predicate ListsDates(list: seq<Lifetime>, dates: map<u64, i64>) {
    && IdsAscend(Nodes(list))
    && (forall d <- list :: Get(dates, d.node) == Some(d.at))
    && (forall k <- dates :: Lifetime(k, dates[k]) in list)
  }

  // `h` is what `t` holds, all of it, in key order.
  ghost predicate Lists(h: Histories, t: Timeline) {
    && ListsFields(h.fields, t.fields) && ListsIntervals(h.relationships, t.intervals)
    && ListsDates(h.appears, t.appears) && ListsDates(h.ends, t.ends)
  }

  lemma {:induction false} NewFieldIsInserted(list: seq<Field>, f: Field)
    requires forall g <- list :: CompareKeys(f, g) != Equal
    ensures InsertField(list, f).Some?
    decreases |list|
  {
    hide CompareKeys;
    if list != [] {
      assert list == [list[0]] + list[1..];
      NewFieldIsInserted(list[1..], f);
    }
  }

  lemma {:induction false} ListOfFields(fields: map<FieldKey, History>) returns (list: seq<Field>)
    ensures ListsFields(list, fields)
    decreases fields.Keys
  {
    if fields == map[] {
      list := [];
    } else {
      var k :| k in fields;
      var others := fields - {k};
      var rest := ListOfFields(others);
      var f := Field(k.0, k.1, fields[k]);
      forall g | g in rest
        ensures CompareKeys(f, g) != Equal
      {
        assert Get(others, (g.node, g.name)).Some?;
        TextOrderLaws(f.name, g.name, f.name);
      }
      NewFieldIsInserted(rest, f);
      InsertKeepsFieldsAscending(rest, f);
      list := InsertField(rest, f).value;
      hide FieldsAscend, CompareKeys, InsertField;
      forall q | q in fields
        ensures Field(q.0, q.1, fields[q]) in list
      {
        assert q != k ==> q in others;
      }
    }
  }

  lemma {:induction false} ListOfIntervals(intervals: map<u64, RelHistory>) returns (list: seq<RelHistory>)
    requires forall k <- intervals :: intervals[k].rel.id == k
    ensures ListsIntervals(list, intervals)
  {
    hide SortedIds;
    var ids := SortedIds(intervals.Keys);
    SortedIdsHolds(intervals.Keys);
    assert forall i | 0 <= i < |ids| :: ids[i] in ids;
    list := seq(|ids|, i requires 0 <= i < |ids| => intervals[ids[i]]);
    assert RelIds(list) == ids;
    forall k | k in intervals
      ensures intervals[k] in list
    {
      var i :| 0 <= i < |ids| && ids[i] == k;
      assert list[i] == intervals[k];
    }
  }

  lemma {:induction false} ListOfDates(dates: map<u64, i64>) returns (list: seq<Lifetime>)
    ensures ListsDates(list, dates)
  {
    hide SortedIds;
    var ids := SortedIds(dates.Keys);
    SortedIdsHolds(dates.Keys);
    assert forall i | 0 <= i < |ids| :: ids[i] in ids;
    list := seq(|ids|, i requires 0 <= i < |ids| => Lifetime(ids[i], dates[ids[i]]));
    assert Nodes(list) == ids;
    forall k | k in dates
      ensures Lifetime(k, dates[k]) in list
    {
      var i :| 0 <= i < |ids| && ids[i] == k;
      assert list[i] == Lifetime(k, dates[k]);
    }
  }

  lemma {:induction false} ListedAreWellFormed(h: Histories, t: Timeline)
    requires Orderly(t) && Lists(h, t)
    ensures WellFormedHistories(h)
  {
    hide WellFormed, FieldsAscend, IdsAscend, InOrder;
    forall i | 0 <= i < |h.fields|
      ensures WellFormed(h.fields[i].history)
    {
      assert h.fields[i] in h.fields;
    }
    forall i | 0 <= i < |h.relationships|
      ensures InOrder(h.relationships[i])
    {
      assert h.relationships[i] in h.relationships;
    }
  }

  // What statements leave can be listed, and any listing of it that is stored
  // is read back as it was.
  lemma {:induction false} OrderlyTimelinesAreStored(t: Timeline, codec: Bincode)
    requires Orderly(t) && Lawful(codec)
    ensures exists h :: Lists(h, t)
    ensures forall h :: Lists(h, t) && |Encode(h, codec)| < TWO_64 ==> Decode(Encode(h, codec), codec) == Ok(h)
  {
    hide ListsFields, ListsIntervals, ListsDates, Encode, Decode, Lawful, WellFormedHistories;
    var fields := ListOfFields(t.fields);
    var intervals := ListOfIntervals(t.intervals);
    var appears := ListOfDates(t.appears);
    var ends := ListOfDates(t.ends);
    assert Lists(Histories(fields, intervals, appears, ends), t);
    forall h | Lists(h, t) && |Encode(h, codec)| < TWO_64
      ensures Decode(Encode(h, codec), codec) == Ok(h)
    {
      ListedAreWellFormed(h, t);
      RoundTrip(h, codec);
    }
  }
}

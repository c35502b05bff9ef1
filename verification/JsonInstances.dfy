/** Texts below a resource (`json_parse` in src/lwm2m/core/json.c): the printer's own are never
    read back, but texts whose base path has no slash at its end are. */
module JsonInstances {
  import opened Text
  import opened Uris
  import opened JsonScan
  import opened JsonTree
  import opened JsonParse
  import opened JsonReadBack
  import opened JsonOutput
  import opened JsonRoundTrip
  import opened JsonLayout
  import opened JsonVariants
  import S = JsonSerialize

  /** The instances of a resource: distinct plain values that survive. */
  predicate Values(list: seq<Data>) {
    && (forall k :: 0 <= k < |list| ==> IsLeaf(list[k]) && LeafReturns(list[k]) && S.InRange(list[k]))
    && Distinct(list)
  }

  /** Each value under its own id. */
  function ValueEntries(list: seq<Data>): (es: seq<Entry>)
    requires forall k :: 0 <= k < |list| ==> IsLeaf(list[k])
    ensures |es| == |list| && forall k :: 0 <= k < |list| ==> es[k] == PathAndLeaf.Entry([list[k].id], list[k])
  {
    if list == [] then [] else [PathAndLeaf.Entry([list[0].id], list[0])] + ValueEntries(list[1..])
  }

  lemma ValueGood(d: Data)
    requires IsLeaf(d) && LeafReturns(d) && S.InRange(d)
    ensures var e := PathAndLeaf.Entry([d.id], d);
            && GoodEntry(e) && ConvertedValue(RecordOf(e), d.id) == Some(d)
            && RecordOf(e).ids[0] == d.id && RecordOf(e).ids[1] == MAX_ID
  {
    hide Clean, ConvertedValue;
    EntryConverts(PathAndLeaf.Entry([d.id], d));
  }

  lemma FreshValue(done: seq<Data>, d: Data, rec: Record)
    requires rec.ids[0] == d.id && ConvertedValue(rec, d.id) == Some(d)
    requires forall k :: 0 <= k < |done| ==> done[k].id != d.id
    ensures Place(done, rec, 0, -1) == Ok(done + [d])
  {
    hide ConvertedValue;
    FindItemUnique(done, d.id, |done|);
    assert (done + [FreshNode(d.id, -1)])[|done| := d] == done + [d];
  }

  lemma FreshId(done: seq<Data>, rest: seq<Data>)
    requires rest != [] && Distinct(done + rest)
    ensures forall k :: 0 <= k < |done| ==> done[k].id != rest[0].id
  {
    var all := done + rest;
    assert all[|done|] == rest[0];
    forall k | 0 <= k < |done|
      ensures done[k].id != rest[0].id
    {
      assert all[k] == done[k] && all[k].id != all[|done|].id;
    }
  }

  lemma FirstValue(list: seq<Data>)
    requires Values(list) && list != []
    ensures IsLeaf(list[0]) && LeafReturns(list[0]) && S.InRange(list[0])
    ensures Values(list[1..]) && ValueEntries(list)[0] == PathAndLeaf.Entry([list[0].id], list[0])
    ensures ValueEntries(list)[1..] == ValueEntries(list[1..])
  {
    hide LeafReturns, IsLeaf, S.InRange;
  }

  /** The first value behind those already placed. */
  lemma NextValue(done: seq<Data>, rest: seq<Data>)
    requires Values(rest) && rest != [] && Distinct(done + rest)
    ensures ValueEntries(rest) != []
    ensures var rec := RecordOf(ValueEntries(rest)[0]);
            && PathComplete(rec.ids, -1) && Place(done, rec, 0, -1) == Ok(done + [rest[0]])
    ensures Values(rest[1..]) && done + [rest[0]] + rest[1..] == done + rest
  {
    hide Place, RecordOf, LeafReturns, ConvertedValue, Values, Distinct, ValueEntries;
    FirstValue(rest);
    ValueGood(rest[0]);
    FreshId(done, rest);
    FreshValue(done, rest[0], RecordOf(PathAndLeaf.Entry([rest[0].id], rest[0])));
  }

  lemma {:induction false} ValuesPlaced(done: seq<Data>, rest: seq<Data>)
    requires Values(rest) && Distinct(done + rest)
    ensures PlaceAll(done, Records(ValueEntries(rest)), -1) == Ok(done + rest)
    decreases |rest|
  {
    hide Place, RecordOf, Values, Distinct, PathComplete;
    if rest == [] {
      assert done + rest == done;
    } else {
      NextValue(done, rest);
      FirstValue(rest);
      RecordsFirst(ValueEntries(rest));
      ValuesPlaced(done + [rest[0]], rest[1..]);
    }
  }

  lemma ValuesLeaves(list: seq<Data>)
    requires Values(list)
    ensures forall k :: 0 <= k < |list| ==> IsLeaf(list[k]) && !list[k].Undefined? && !list[k].IsContainer()
    ensures Distinct([] + list) && GoodEntries(ValueEntries(list)) && |Records(ValueEntries(list))| == |list|
  {
    hide Clean, GoodEntry;
    assert [] + list == list;
    forall k | 0 <= k < |list|
      ensures GoodEntry(ValueEntries(list)[k])
    {
      ValueGood(list[k]);
    }
  }

  lemma WrappedResource(u: Uri, list: seq<Data>)
    requires u.instanceId.Some? && u.resourceId.Some? && list != []
    requires forall k :: 0 <= k < |list| ==> !list[k].Undefined? && !list[k].IsContainer()
    ensures Wrapped(Some(u), list) != [] && Selected(Some(u), Wrapped(Some(u), list)) == Ok(list)
  {
    StripPlain(list);
    var resources := [Multiple(u.resourceId.value, list)];
    var instances := [Instance(u.instanceId.value, resources)];
    assert Wrapped(Some(u), list) == [Object(u.objectId, instances)];
    assert FindInstance(instances, u.instanceId.value) == 0;
    assert FindResource(resources, u.resourceId.value) == 0;
  }

  /** Values below a resource return from every text of them in whose base path the resource is
      named, or in which there is none: such a path may not end in a slash. */
  lemma InstancesReturn(u: Uri, list: seq<Data>, buf: string, base: Option<string>)
    requires WellFormed(u) && u.resourceId.Some? && Values(list) && list != []
    requires LaidOut(buf, base, ValueEntries(list)) && Denotes(base, Some(u), Some(u))
    ensures Parsed(Some(u), buf) == Ok(list)
  {
    hide LaidOut, Values, GoodEntries, Scanned, BasePath, Records, Denotes, Noted, Selected, Wrapped;
    ValuesLeaves(list);
    LayoutScanned(buf, base, ValueEntries(list));
    var t, records := Scanned(buf).value, Records(ValueEntries(list));
    BaseDenoted(Some(u), buf, t, base, Some(u));
    ParsedFrom(Some(u), buf, t, records, Some(u));
    ValuesPlaced([], list);
    NothingLeft(u, records, list);
    WrappedResource(u, list);
  }

  lemma NothingLeft(u: Uri, records: seq<Record>, list: seq<Data>)
    requires u.instanceId.Some? && u.resourceId.Some? && |records| == |list|
    requires PlaceAll([], records, -1) == Ok([] + list)
    ensures Converted(Some(u), records) == Ok(Wrapped(Some(u), list))
  {
    hide PlaceAll, Wrapped;
    assert [] + list == list && list + Padding(0) == list;
  }
}

/** What the records of a text denote (`prv_convertRecord` in src/lwm2m/core/json.c): the last
    record for a resource is its value, those for the instances of a multiple one add up. */
module JsonRecords {
  import opened Text
  import opened Uris
  import opened JsonScan
  import opened JsonTree

  /** The entry at the end of a path, each time the first with the id. */
  function EntryAt(list: seq<Data>, path: seq<nat>): Option<Data>
    requires path != []
    decreases |path|
  {
    var k := FindItem(list, path[0]);
    if k == |list| then None
    else if |path| == 1 then Some(list[k])
    else EntryAt(list[k].Children(), path[1..])
  }

  /** The path of the resource a record is for, below the base path. */
  function ResourcePath(rec: Record, k: nat, res: int): (p: seq<nat>)
    requires -1 <= res <= 2 && k <= 2 && (k <= res || k == 0)
    ensures p != []
  {
    rec.ids[k..(if res < 0 then 0 else res) + 1]
  }

  predicate ForInstance(rec: Record, res: int)
    requires -1 <= res <= 2
  {
    res >= 0 && rec.ids[res + 1] != MAX_ID
  }

  /** The resource after a record for it, if that is taken. */
  function Updated(was: Option<Data>, rec: Record, id: nat, res: int): Option<Data>
    requires -1 <= res <= 2
  {
    if !ForInstance(rec, res) then ConvertedValue(rec, id)
    else
      match ConvertedValue(rec, rec.ids[res + 1])
      case None => None
      case Some(v) => Some(Multiple(id, (if was.None? then [] else was.value.Children()) + [v]))
  }

  /** Replacing the first entry with an id, or adding one behind the others. */
  lemma FindReplaced(list: seq<Data>, id: nat, d: Data, other: nat)
    requires d.id == id && !d.Undefined?
    ensures var at := FindItem(list, id);
            var r := if at < |list| then list[at := d] else list + [d];
            var k, was := FindItem(r, other), FindItem(list, other);
            if other == id then k == at < |r| && r[k] == d
            else (k == |r| <==> was == |list|) && (was < |list| ==> k == was && r[k] == list[was])
  {
    var at := FindItem(list, id);
    var r := if at < |list| then list[at := d] else list + [d];
    if other == id {
      FindItemUnique(r, id, at);
    } else {
      var was := FindItem(list, other);
      if was < |list| {
        FindItemUnique(r, other, was);
      } else {
        FindItemUnique(r, other, |r|);
      }
    }
  }

  function Replaced(list: seq<Data>, id: nat, d: Data): seq<Data> {
    var at := FindItem(list, id);
    if at < |list| then list[at := d] else list + [d]
  }

  /** What is listed below an id. */
  function Below(list: seq<Data>, id: nat): seq<Data> {
    var at := FindItem(list, id);
    if at < |list| then list[at].Children() else []
  }

  /** The entry a record leaves at its level. */
  lemma PlaceStep(list: seq<Data>, rec: Record, k: nat, res: int) returns (d: Data)
    requires -1 <= res <= 2 && k <= 2 && (k <= res || k == 0) && Place(list, rec, k, res).Ok?
    ensures d.id == rec.ids[k] && !d.Undefined? && Place(list, rec, k, res).value == Replaced(list, rec.ids[k], d)
    ensures k < res ==>
              && Place(Below(list, rec.ids[k]), rec, k + 1, res).Ok?
              && d.Children() == Place(Below(list, rec.ids[k]), rec, k + 1, res).value
    ensures k >= res ==> Some(d) == Updated(EntryAt(list, [rec.ids[k]]), rec, rec.ids[k], res)
  {
    hide ConvertedValue, FindItem;
    var id := rec.ids[k];
    var at := FindItem(list, id);
    FindBounds(list, id);
    d := Place(list, rec, k, res).value[at];
    assert (list + [FreshNode(id, res - k)])[at := d] == if at < |list| then (list[at := d] + [FreshNode(id, res - k)])
                                                         else list + [d];
  }

  lemma FindBounds(list: seq<Data>, id: nat)
    ensures var at := FindItem(list, id);
            at <= |list| && (at < |list| ==> list[at].id == id && !list[at].Undefined?)
  {}

  /** Where a path leads after one entry is replaced. */
  lemma EntryReplaced(list: seq<Data>, id: nat, d: Data, path: seq<nat>)
    requires d.id == id && !d.Undefined? && path != []
    ensures EntryAt(Replaced(list, id, d), path) ==
            if path[0] != id then EntryAt(list, path)
            else if |path| == 1 then Some(d)
            else EntryAt(d.Children(), path[1..])
  {
    hide FindItem;
    FindReplaced(list, id, d, path[0]);
  }

  /** A record changes the entry at its own path and no other. */
  lemma {:induction false} PlaceExact(list: seq<Data>, rec: Record, k: nat, res: int, path: seq<nat>)
    requires -1 <= res <= 2 && k <= 2 && (k <= res || k == 0)
    requires Place(list, rec, k, res).Ok? && |path| == |ResourcePath(rec, k, res)|
    ensures var root := Place(list, rec, k, res).value;
            EntryAt(root, path) ==
              if path == ResourcePath(rec, k, res) then Updated(EntryAt(list, path), rec, path[|path| - 1], res)
              else EntryAt(list, path)
    decreases res - k
  {
    hide ConvertedValue, FindItem, Place, Replaced, Updated;
    var id := rec.ids[k];
    var d := PlaceStep(list, rec, k, res);
    EntryReplaced(list, id, d, path);
    if k < res {
      assert ResourcePath(rec, k, res) == [id] + ResourcePath(rec, k + 1, res);
      assert path == [path[0]] + path[1..];
      if path[0] == id {
        PlaceExact(Below(list, id), rec, k + 1, res, path[1..]);
        EntryBelow(list, id, path);
      }
    } else {
      assert ResourcePath(rec, k, res) == [id];
      assert path == [path[0]];
    }
  }

  lemma EntryBelow(list: seq<Data>, id: nat, path: seq<nat>)
    requires |path| > 1 && path[0] == id
    ensures EntryAt(list, path) == EntryAt(Below(list, id), path[1..])
  {
    hide FindItem;
    FindBounds(list, id);
    NothingBelow(path[1..]);
  }

  lemma NothingBelow(path: seq<nat>)
    requires path != []
    ensures EntryAt([], path) == None
  {}

  /** The resource under a path after records, given what was there. */
  function Denoted(was: Option<Data>, records: seq<Record>, path: seq<nat>, res: int): Option<Data>
    requires -1 <= res <= 2 && path != []
    decreases |records|
  {
    if records == [] then was
    else
      var rec := records[0];
      var next := if ResourcePath(rec, 0, res) == path then Updated(was, rec, path[|path| - 1], res) else was;
      Denoted(next, records[1..], path, res)
  }

  lemma {:induction false} PlacedFrom(list: seq<Data>, records: seq<Record>, res: int, path: seq<nat>)
    requires -1 <= res <= 2 && |path| == (if res < 0 then 0 else res) + 1 && PlaceAll(list, records, res).Ok?
    ensures EntryAt(PlaceAll(list, records, res).value, path) == Denoted(EntryAt(list, path), records, path, res)
    decreases |records|
  {
    hide Place, EntryAt, Updated;
    if records != [] {
      PlaceExact(list, records[0], 0, res, path);
      PlacedFrom(Place(list, records[0], 0, res).value, records[1..], res, path);
    }
  }

  /** The tree built from records holds under every path what its records denote. */
  lemma RecordsDenote(records: seq<Record>, res: int, path: seq<nat>)
    requires -1 <= res <= 2 && |path| == (if res < 0 then 0 else res) + 1 && PlaceAll([], records, res).Ok?
    ensures EntryAt(PlaceAll([], records, res).value, path) == Denoted(None, records, path, res)
  {
    hide PlaceAll, Denoted;
    PlacedFrom([], records, res, path);
    NothingBelow(path);
  }

  /** A record for another resource changes nothing, a single one is the value whatever was
      there before, and one for an instance is added behind those before it. */
  lemma {:induction false} LastRecord(was: Option<Data>, records: seq<Record>, rec: Record, path: seq<nat>, res: int)
    requires -1 <= res <= 2 && path != []
    ensures var before, id := Denoted(was, records, path, res), path[|path| - 1];
            Denoted(was, records + [rec], path, res) ==
              if path != ResourcePath(rec, 0, res) then before
              else if res < 0 || rec.ids[res + 1] == 65535 then ConvertedValue(rec, id)
              else
                match ConvertedValue(rec, rec.ids[res + 1])
                case None => None
                case Some(v) => Some(Multiple(id, (if before.None? then [] else before.value.Children()) + [v]))
    decreases |records|
  {
    hide ConvertedValue, ResourcePath;
    var all := records + [rec];
    if records == [] {
      assert all[1..] == [];
    } else {
      assert all[1..] == records[1..] + [rec];
      var next := if ResourcePath(all[0], 0, res) == path then Updated(was, all[0], path[|path| - 1], res) else was;
      LastRecord(next, records[1..], rec, path, res);
    }
  }

  /** A record whose path has exactly the ids that are missing, or one more, and whose value
      can be converted. */
  predicate Usable(rec: Record, res: int)
    requires -1 <= res <= 2
  {
    && (forall k :: 0 <= k <= res ==> rec.ids[k] != 65535)
    && (res < 2 ==> rec.ids[res + 2] == 65535)
    && ConvertedValue(rec, 0).Some?
  }

  lemma AnyId(rec: Record, id: nat)
    ensures ConvertedValue(rec, id).Some? <==> ConvertedValue(rec, 0).Some?
  {
    hide TextToInt, IsDecimalFraction, DotPosition;
  }

  lemma {:induction false} PlaceUsable(list: seq<Data>, rec: Record, k: nat, res: int)
    requires -1 <= res <= 2 && k <= 2 && (k <= res || k == 0)
    ensures Place(list, rec, k, res).Ok? ==> ConvertedValue(rec, 0).Some?
    ensures Place(list, rec, k, res).Refused? ==> ConvertedValue(rec, 0).None?
    decreases res - k
  {
    hide ConvertedValue, FindItem;
    var id := rec.ids[k];
    var at := FindItem(list, id);
    FindBounds(list, id);
    if k < res {
      PlaceUsable(if at < |list| then list[at].Children() else [], rec, k + 1, res);
    } else {
      AnyId(rec, id);
      AnyId(rec, rec.ids[k + 1]);
    }
  }

  /** Records are converted only if all are usable, and refused only if one is not. */
  lemma {:induction false} UsableExact(list: seq<Data>, records: seq<Record>, res: int)
    requires -1 <= res <= 2
    ensures PlaceAll(list, records, res).Ok? ==> forall i :: 0 <= i < |records| ==> Usable(records[i], res)
    ensures PlaceAll(list, records, res).Refused? ==> exists i :: 0 <= i < |records| && !Usable(records[i], res)
    decreases |records|
  {
    hide ConvertedValue, Place;
    if records != [] {
      PlaceUsable(list, records[0], 0, res);
      var first := Place(list, records[0], 0, res);
      if PathComplete(records[0].ids, res) && first.Ok? {
        UsableExact(first.value, records[1..], res);
        assert forall i :: 0 <= i < |records| - 1 ==> records[1..][i] == records[i + 1];
      } else {
        assert Usable(records[0], res) ==> PathComplete(records[0].ids, res);
      }
    }
  }
}

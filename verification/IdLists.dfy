/** Sorted lists of records under 16-bit ids, as values.  The pointer code of
    src/lwm2m/core/list.c is proved in `SortedList`; here a list is the sequence of the
    records met when walking it. */
module IdLists {
  import opened Text

  datatype Entry<+T> = Entry(id: nat, body: T)

  const ID_COUNT := 0x1_0000

  predicate Ascending<T>(list: seq<Entry<T>>) {
    forall i, j :: 0 <= i < j < |list| ==> list[i].id < list[j].id
  }

  /** How far a walk goes that stops at the first id not below `id`. */
  function Position<T>(list: seq<Entry<T>>, id: nat): (k: nat)
    ensures k <= |list|
    ensures forall j :: 0 <= j < k ==> list[j].id < id
    ensures k < |list| ==> list[k].id >= id
  {
    if list == [] || list[0].id >= id then 0 else 1 + Position(list[1..], id)
  }

  function Find<T>(list: seq<Entry<T>>, id: nat): Option<T> {
    var k := Position(list, id);
    if k < |list| && list[k].id == id then Some(list[k].body) else None
  }

  predicate Has<T>(list: seq<Entry<T>>, id: nat) {
    Find(list, id).Some?
  }

  /** `lwm2m_list_add`; on an id already there the new record goes behind a head with
      that id and before any other record with it. */
  function Add<T>(list: seq<Entry<T>>, id: nat, body: T): (r: seq<Entry<T>>)
  {
    if list == [] then [Entry(id, body)]
    else if list[0].id > id then [Entry(id, body)] + list
    else
      var k := 1 + Position(list[1..], id);
      list[..k] + [Entry(id, body)] + list[k..]
  }

  /** `lwm2m_list_remove`; nothing changes when the id is not there. */
  function Remove<T>(list: seq<Entry<T>>, id: nat): (r: seq<Entry<T>>)
    ensures |r| <= |list|
  {
    var k := Position(list, id);
    if k < |list| && list[k].id == id then list[..k] + list[k + 1..] else list
  }

  /** The record under `id` changed in place. */
  function Put<T>(list: seq<Entry<T>>, id: nat, body: T): (r: seq<Entry<T>>)
    ensures |r| == |list| && forall i :: 0 <= i < |list| ==> r[i].id == list[i].id
  {
    var k := Position(list, id);
    if k < |list| && list[k].id == id then list[k := Entry(id, body)] else list
  }

  /** `lwm2m_list_newId`, from position `id` of the list on. */
  function NewIdFrom<T>(list: seq<Entry<T>>, id: nat): nat {
    if list == [] || list[0].id != id then id else NewIdFrom(list[1..], (id + 1) % ID_COUNT)
  }

  function NewId<T>(list: seq<Entry<T>>): nat {
    NewIdFrom(list, 0)
  }

  lemma PositionAt<T>(list: seq<Entry<T>>, i: nat)
    requires Ascending(list) && i < |list|
    ensures Position(list, list[i].id) == i
  {}

  /** Every record is found under its id. */
  lemma FindAt<T>(list: seq<Entry<T>>, i: nat)
    requires Ascending(list) && i < |list|
    ensures Find(list, list[i].id) == Some(list[i].body)
  {
    PositionAt(list, i);
  }

  /** Where a fresh record goes. */
  lemma AddAt<T>(list: seq<Entry<T>>, id: nat, body: T)
    requires Ascending(list) && !Has(list, id)
    ensures var k := Position(list, id); Add(list, id, body) == list[..k] + [Entry(id, body)] + list[k..]
  {
    var k := Position(list, id);
    if list != [] && list[0].id <= id {
      assert list[0].id != id;
      var tail := list[1..];
      assert forall j :: 0 <= j < |tail| ==> tail[j] == list[j + 1];
      assert Position(tail, id) == k - 1;
    }
  }

  lemma Gap<T>(list: seq<Entry<T>>, id: nat)
    requires Ascending(list)
    ensures Has(list, id) <==> exists i :: 0 <= i < |list| && list[i].id == id
  {
    if i :| 0 <= i < |list| && list[i].id == id { FindAt(list, i); }
  }

  /** A list is its first record and the records behind it. */
  lemma TailFind<T>(list: seq<Entry<T>>, x: nat)
    requires Ascending(list) && list != []
    ensures Ascending(list[1..])
    ensures Find(list, x) == if x == list[0].id then Some(list[0].body) else Find(list[1..], x)
    ensures !Has(list[1..], list[0].id)
  {
    hide Position;
    var tail := list[1..];
    forall i, j | 0 <= i < j < |tail|
      ensures tail[i].id < tail[j].id
    {
      assert tail[i] == list[i + 1] && tail[j] == list[j + 1];
    }
    FindAt(list, 0);
    Gap(tail, list[0].id);
    if Has(tail, x) {
      var q := Position(tail, x);
      FindAt(list, q + 1);
    }
    if Has(list, x) && x != list[0].id {
      var q := Position(list, x);
      assert tail[q - 1] == list[q];
      FindAt(tail, q - 1);
    }
  }

  /** `r` is `list` with `e` in front of what was at `k`. */
  ghost predicate Gains<T>(list: seq<Entry<T>>, k: nat, e: Entry<T>, r: seq<Entry<T>>) {
    && k <= |list| && |r| == |list| + 1
    && (forall j :: 0 <= j < k ==> r[j] == list[j]) && r[k] == e
    && forall j :: k < j < |r| ==> r[j] == list[j - 1]
  }

  lemma InsertedGains<T>(list: seq<Entry<T>>, k: nat, e: Entry<T>)
    requires k <= |list|
    ensures Gains(list, k, e, list[..k] + [e] + list[k..])
  {}

  lemma GainsAscending<T>(list: seq<Entry<T>>, k: nat, e: Entry<T>, r: seq<Entry<T>>)
    requires Ascending(list) && Gains(list, k, e, r)
    requires (k > 0 ==> list[k - 1].id < e.id) && (k < |list| ==> e.id < list[k].id)
    ensures Ascending(r)
  {
    forall i, j | 0 <= i < j < |r|
      ensures r[i].id < r[j].id
    {
      if i < k { assert list[i].id < e.id; }
      if j > k { assert e.id < list[j - 1].id; }
    }
  }

  lemma AddAscending<T>(list: seq<Entry<T>>, id: nat, body: T)
    requires Ascending(list) && !Has(list, id)
    ensures Ascending(Add(list, id, body))
  {
    hide Add, Gains;
    AddAt(list, id, body);
    InsertedGains(list, Position(list, id), Entry(id, body));
    GainsAscending(list, Position(list, id), Entry(id, body), Add(list, id, body));
  }

  /** Where a walk for `x` stops is settled by what it meets. */
  lemma {:induction false} PositionUnique<T>(list: seq<Entry<T>>, x: nat, p: nat)
    requires p <= |list| && (p < |list| ==> list[p].id >= x)
    requires forall j :: 0 <= j < p ==> list[j].id < x
    ensures Position(list, x) == p
  {
    if p > 0 { PositionUnique(list[1..], x, p - 1); }
  }

  /** Where a fresh record goes, whatever the order of the list. */
  lemma AddPlace<T>(list: seq<Entry<T>>, id: nat, body: T) returns (k: nat)
    requires !Has(list, id)
    ensures k <= |list| && Add(list, id, body) == list[..k] + [Entry(id, body)] + list[k..]
    ensures (forall j :: 0 <= j < k ==> list[j].id < id) && (k < |list| ==> list[k].id >= id)
  {
    if list == [] || list[0].id > id {
      k := 0;
    } else {
      var tail := list[1..];
      k := 1 + Position(tail, id);
      forall j | 0 <= j < k
        ensures list[j].id < id
      {
        if j > 0 { assert list[j] == tail[j - 1]; }
      }
      if k < |list| { assert list[k] == tail[k - 1]; }
    }
  }

  lemma GainsFind<T>(list: seq<Entry<T>>, k: nat, e: Entry<T>, r: seq<Entry<T>>, x: nat)
    requires Gains(list, k, e, r) && !Has(list, e.id)
    requires (forall j :: 0 <= j < k ==> list[j].id < e.id) && (k < |list| ==> list[k].id >= e.id)
    ensures Find(r, x) == if x == e.id then Some(e.body) else Find(list, x)
  {
    var p := Position(list, x);
    assert k < |list| ==> r[k + 1] == list[k];
    assert p < |list| ==> r[if p < k then p else p + 1] == list[p];
    PositionUnique(r, x, if p < k then p else if e.id < x then p + 1 else k);
  }

  /** A fresh record is found under its id, every other as before. */
  lemma AddFind<T>(list: seq<Entry<T>>, id: nat, body: T, x: nat)
    requires !Has(list, id)
    ensures Find(Add(list, id, body), x) == if x == id then Some(body) else Find(list, x)
  {
    hide Add, Find, Gains;
    var k := AddPlace(list, id, body);
    InsertedGains(list, k, Entry(id, body));
    GainsFind(list, k, Entry(id, body), Add(list, id, body), x);
  }

  lemma WithoutAscending<T>(list: seq<Entry<T>>, k: nat)
    requires Ascending(list) && k < |list|
    ensures Ascending(list[..k] + list[k + 1..])
  {
    var r := list[..k] + list[k + 1..];
    forall i | 0 <= i < |r|
      ensures r[i] == if i < k then list[i] else list[i + 1]
    {}
  }

  lemma RemoveAscending<T>(list: seq<Entry<T>>, id: nat)
    requires Ascending(list)
    ensures Ascending(Remove(list, id))
  {
    hide Ascending;
    var k := Position(list, id);
    if k < |list| && list[k].id == id { WithoutAscending(list, k); }
  }

  lemma RemoveFind<T>(list: seq<Entry<T>>, id: nat, x: nat)
    requires Ascending(list)
    ensures Find(Remove(list, id), x) == if x == id then None else Find(list, x)
  {
    var k := Position(list, id);
    if k < |list| && list[k].id == id { WithoutFind(list, k, x); }
  }

  lemma WithoutFind<T>(list: seq<Entry<T>>, k: nat, x: nat)
    requires Ascending(list) && k < |list|
    ensures Find(list[..k] + list[k + 1..], x) == if x == list[k].id then None else Find(list, x)
  {
    var r, p := list[..k] + list[k + 1..], Position(list, x);
    forall i | 0 <= i < |r|
      ensures r[i] == if i < k then list[i] else list[i + 1]
    {}
    PositionUnique(r, x, if p <= k then p else p - 1);
  }

  lemma PutAscending<T>(list: seq<Entry<T>>, id: nat, body: T)
    requires Ascending(list)
    ensures Ascending(Put(list, id, body))
  {}

  lemma PutFind<T>(list: seq<Entry<T>>, id: nat, body: T, x: nat)
    requires Ascending(list)
    ensures Find(Put(list, id, body), x) == if x == id && Has(list, id) then Some(body) else Find(list, x)
  {
    PutAscending(list, id, body);
    var r := Put(list, id, body);
    var k := Position(list, id);
    var p := Position(list, x);
    if p < |list| { assert r[p].id == list[p].id; }
    PositionSame(list, r, x);
  }

  lemma {:induction false} PositionSame<T>(a: seq<Entry<T>>, b: seq<Entry<T>>, id: nat)
    requires |a| == |b| && forall i :: 0 <= i < |a| ==> a[i].id == b[i].id
    ensures Position(a, id) == Position(b, id)
  {
    if a != [] && a[0].id < id { PositionSame(a[1..], b[1..], id); }
  }

  /** Taking a fresh record out again restores the list, whatever was put in its place. */
  lemma AddPutRemove<T>(list: seq<Entry<T>>, id: nat, body: T, body': T)
    requires Ascending(list) && !Has(list, id)
    ensures Remove(Put(Add(list, id, body), id, body'), id) == list
    ensures Remove(Add(list, id, body), id) == list
  {
    hide Add;
    AddAt(list, id, body);
    AddAscending(list, id, body);
    var k := Position(list, id);
    var r := Add(list, id, body);
    PositionAt(r, k);
    TakenOut(list, k, Entry(id, body));
    var p := list[..k] + [Entry(id, body')] + list[k..];
    assert Put(r, id, body') == p;
    PositionSame(p, r, id);
    TakenOut(list, k, Entry(id, body'));
  }

  lemma TakenOut<T>(list: seq<Entry<T>>, k: nat, e: Entry<T>)
    requires k <= |list|
    ensures var r := list[..k] + [e] + list[k..]; r[k] == e && r[..k] + r[k + 1..] == list
  {}

  /** Ids of an ascending list run ahead of their positions. */
  lemma {:induction false} IdAhead<T>(list: seq<Entry<T>>, i: nat)
    requires Ascending(list) && i < |list|
    ensures list[i].id >= i
  {
    if i > 0 { IdAhead(list, i - 1); }
  }

  /** Behind a dense prefix the first id that is not its position leaves a gap. */
  lemma DenseGap<T>(list: seq<Entry<T>>, k: nat)
    requires Ascending(list) && k <= |list|
    requires forall i :: 0 <= i < k ==> list[i].id == i
    requires k < |list| ==> list[k].id != k
    ensures !Has(list, k)
  {
    hide Find, Position, Has;
    Gap(list, k);
    if k < |list| { IdAhead(list, k); }
    forall i | 0 <= i < |list|
      ensures list[i].id != k
    {
      if i > k { assert list[k].id < list[i].id; }
    }
  }

  lemma NewIdStep<T>(list: seq<Entry<T>>, k: nat)
    requires k <= |list| && k + 1 < ID_COUNT
    ensures NewIdFrom(list[k..], k) ==
            if k == |list| || list[k].id != k then k else NewIdFrom(list[k + 1..], k + 1)
  {
    if k < |list| { assert list[k..][1..] == list[k + 1..]; }
    assert (k + 1) % ID_COUNT == k + 1;
  }

  lemma {:induction false} NewIdDense<T>(list: seq<Entry<T>>, k: nat)
    requires Ascending(list) && k <= |list| < ID_COUNT
    requires forall i :: 0 <= i < k ==> list[i].id == i
    ensures NewIdFrom(list[k..], k) < ID_COUNT && !Has(list, NewIdFrom(list[k..], k))
    decreases |list| - k
  {
    hide Has, NewIdFrom, Ascending;
    if k < |list| && list[k].id == k {
      NewIdStep(list, k);
      NewIdDense(list, k + 1);
    } else {
      DenseGap(list, k);
      if k < |list| { NewIdStep(list, k); } else { NewIdEnd(list, k); }
    }
  }

  lemma NewIdEnd<T>(list: seq<Entry<T>>, k: nat)
    requires k == |list|
    ensures NewIdFrom(list[k..], k) == k
  {}

  /** The new id is unused as long as one is. */
  lemma NewIdFresh<T>(list: seq<Entry<T>>)
    requires Ascending(list) && |list| < ID_COUNT
    ensures NewId(list) < ID_COUNT && !Has(list, NewId(list))
  {
    assert list[0..] == list;
    NewIdDense(list, 0);
  }

  lemma {:induction false} NewIdSkips<T>(list: seq<Entry<T>>, k: nat, x: nat)
    requires Ascending(list) && k <= |list| < ID_COUNT
    requires forall i :: 0 <= i < k ==> list[i].id == i
    requires x < NewIdFrom(list[k..], k)
    ensures Has(list, x)
    decreases |list| - k
  {
    hide Has, NewIdFrom, Ascending;
    if x < k {
      DenseHas(list, x);
    } else if k < |list| {
      NewIdStep(list, k);
      NewIdSkips(list, k + 1, x);
    } else {
      NewIdEnd(list, k);
    }
  }

  lemma DenseHas<T>(list: seq<Entry<T>>, x: nat)
    requires Ascending(list) && x < |list| && list[x].id == x
    ensures Has(list, x)
  {
    FindAt(list, x);
  }

  /** The new id is the one that is unused while all smaller ids are in use. */
  lemma NewIdLeast<T>(list: seq<Entry<T>>, id: nat)
    requires Ascending(list) && |list| < ID_COUNT
    ensures id == NewId(list) <==> !Has(list, id) && forall x :: 0 <= x < id ==> Has(list, x)
  {
    hide Has, Ascending;
    NewIdFresh(list);
    assert list[0..] == list;
    forall x | 0 <= x < NewId(list)
      ensures Has(list, x)
    {
      NewIdSkips(list, 0, x);
    }
  }
}

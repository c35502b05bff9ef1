/** What a pair of an item means (`prv_parseItem` in src/lwm2m/core/json.c): exactly which
    names are taken for which paths, and what the other keys do. */
module JsonNames {
  import opened Text
  import opened Uris
  import opened JsonScan

  /** Up to `n` segments of digits, possibly none, with slashes between them; each denotes
      a 16-bit number. */
  predicate Spelled(t: string, segs: seq<string>, n: nat) {
    && 1 <= |segs| <= n && t == Joined(segs, false)
    && forall k :: 0 <= k < |segs| ==> AllDigits(segs[k]) && NatValue(segs[k]) <= MAX_ID
  }

  /** Their numbers from place `j` on. */
  function Filled(ids: seq<nat>, segs: seq<string>, j: nat): (r: seq<nat>)
    requires |ids| == 4 && j + |segs| <= 4
    requires forall k :: 0 <= k < |segs| ==> AllDigits(segs[k])
    ensures |r| == 4
  {
    ids[..j] + seq(|segs|, k requires 0 <= k < |segs| => NatValue(segs[k])) + ids[j + |segs|..]
  }

  lemma FilledOne(ids: seq<nat>, seg: string, j: nat)
    requires |ids| == 4 && j < 4 && AllDigits(seg)
    ensures Filled(ids, [seg], j) == ids[j := NatValue(seg)]
  {
    hide NatValue;
  }

  lemma FilledNext(ids: seq<nat>, segs: seq<string>, j: nat)
    requires |ids| == 4 && j + |segs| <= 4 && |segs| > 1
    requires forall k :: 0 <= k < |segs| ==> AllDigits(segs[k])
    ensures Filled(ids, segs, j) == Filled(ids[j := NatValue(segs[0])], segs[1..], j + 1)
  {
    hide NatValue;
    var a, b := Filled(ids, segs, j), Filled(ids[j := NatValue(segs[0])], segs[1..], j + 1);
    forall k | 0 <= k < 4
      ensures a[k] == b[k]
    {}
  }

  /** The first segment of a spelled path is the one the scan finds. */
  lemma FirstSegment(path: string, p: nat, segs: seq<string>, n: nat)
    requires p <= |path| && Spelled(path[p..], segs, n)
    ensures var e := SegmentEnd(path, p, |path|);
            && e == p + |segs[0]| && path[p..e] == segs[0]
            && (|segs| == 1 <==> e == |path|)
            && (|segs| > 1 ==> Spelled(path[e + 1..], segs[1..], n - 1))
  {
    hide NatValue, SegmentEnd;
    var t, seg := path[p..], segs[0];
    var e := p + |seg|;
    assert t[..|seg|] == seg;
    assert forall k :: 0 <= k < |seg| ==> path[p + k] == seg[k];
    if |segs| > 1 {
      assert t[|seg|] == '/' && t[|seg| + 1..] == Joined(segs[1..], false);
      assert path[e + 1..] == t[|seg| + 1..];
    }
    SegmentEndUnique(path, p, |path|, e);
  }

  lemma {:induction false} PathSound(path: string, p: nat, ids: seq<nat>, j: nat) returns (segs: seq<string>)
    requires p <= |path| && |ids| == 4 && j < 4 && PathIds(path, p, ids, j).Some?
    ensures Spelled(path[p..], segs, 4 - j) && PathIds(path, p, ids, j) == Some(Filled(ids, segs, j))
    decreases 4 - j
  {
    hide NatValue, SegmentEnd, Filled;
    var e := SegmentEnd(path, p, |path|);
    SegmentStop(path, p);
    var seg := path[p..e];
    if e == |path| {
      segs := [seg];
      assert seg + "" == seg == path[p..];
      FilledOne(ids, seg, j);
    } else {
      var rest := PathSound(path, e + 1, ids[j := NatValue(seg)], j + 1);
      segs := [seg] + rest;
      assert segs[1..] == rest;
      assert path[p..] == seg + ("/" + path[e + 1..]);
      FilledNext(ids, segs, j);
    }
  }

  lemma SegmentStop(path: string, p: nat)
    requires p <= |path|
    ensures var e := SegmentEnd(path, p, |path|); p <= e <= |path| && (e < |path| ==> path[e] == '/')
  {}

  lemma {:induction false} PathComplete(path: string, p: nat, ids: seq<nat>, j: nat, segs: seq<string>)
    requires p <= |path| && |ids| == 4 && j < 4 && Spelled(path[p..], segs, 4 - j)
    ensures PathIds(path, p, ids, j) == Some(Filled(ids, segs, j))
    decreases 4 - j
  {
    hide NatValue, SegmentEnd, Filled;
    FirstSegment(path, p, segs, 4 - j);
    var e := SegmentEnd(path, p, |path|);
    if |segs| == 1 {
      assert segs == [segs[0]];
      FilledOne(ids, segs[0], j);
    } else {
      PathComplete(path, e + 1, ids[j := NatValue(segs[0])], j + 1, segs[1..]);
      FilledNext(ids, segs, j);
    }
  }

  /** A quoted path: up to four segments, an empty one counting as 0, with one slash more in
      front or without. */
  ghost predicate IsName(value: string, segs: seq<string>) {
    segs != [] && var t := Joined(segs, false);
    && Spelled(t, segs, 4)
    && (|| (value == "\"" + t + "\"" && (t == "" || t[0] != '/'))
        || (value == "\"/" + t + "\"" && t != ""))
  }

  /** Exactly the quoted paths are taken as names. */
  lemma NameExact(value: string, ids: seq<nat>)
    requires |value| > 0
    ensures NameIds(value, NO_RECORD.ids) == Some(ids) <==>
            exists segs :: IsName(value, segs) && ids == Filled(NO_RECORD.ids, segs, 0)
  {
    hide PathIds, Filled, Joined, NatValue;
    if NameIds(value, NO_RECORD.ids) == Some(ids) {
      var path := if value[1] != '/' then value[1..|value| - 1] else value[2..|value| - 1];
      var segs := PathSound(path, 0, NO_RECORD.ids, 0);
      assert path[0..] == path;
      assert IsName(value, segs);
    }
    forall segs | IsName(value, segs)
      ensures NameIds(value, NO_RECORD.ids) == Some(Filled(NO_RECORD.ids, segs, 0))
    {
      var t := Joined(segs, false);
      assert t[0..] == t;
      PathComplete(t, 0, NO_RECORD.ids, 0, segs);
      if value == "\"" + t + "\"" {
        assert value[1..|value| - 1] == t;
      } else {
        assert value[2..|value| - 1] == t;
      }
    }
  }

  /** What the keys other than `n` do.  A truth value is taken from any part of its word that
      stands at the front of it, a link is taken and forgotten, and a time is ignored. */
  lemma KeyExact(key: string, value: string, rec: Record)
    requires |value| > 0 && NUL !in value && key != "n"
    ensures var r := ApplyPair(key, value, rec);
            && (key == "t" ==> r == Some(rec))
            && (key !in {"t", "v", "bv", "ov", "sv"} ==> r == None)
            && (key in {"v", "bv", "ov", "sv"} && !rec.kind.Unset? ==> r == None)
            && (rec.kind.Unset? ==>
                  && (key == "v" ==> r == Some(rec.(kind := NumberValue, value := value)))
                  && (key == "ov" ==> r == Some(rec))
                  && (key == "bv" ==> r == if value <= "true" then Some(rec.(kind := TrueValue))
                                           else if value <= "false" then Some(rec.(kind := FalseValue))
                                           else None)
                  && (key == "sv" ==> (r.Some? <==> exists t: string :: value == "\"" + t + "\""))
                  && (forall t: string :: key == "sv" && value == "\"" + t + "\"" ==>
                                          r == Some(rec.(kind := TextValue, value := t))))
  {
    if |key| == 1 { assert key == [key[0]]; }
    if |key| == 2 { assert key == [key[0], key[1]]; }
    if key == "sv" && |value| >= 2 && value[0] == '"' && value[|value| - 1] == '"' {
      assert value == "\"" + value[1..|value| - 1] + "\"";
    }
    forall t: string | value == "\"" + t + "\""
      ensures value[1..|value| - 1] == t
    {}
  }
}

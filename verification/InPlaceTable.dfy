/**
 The MSP table as the Go code keeps it: a slice whose backing array is shared with the
 caller's client state. Updates and freezes write into that array; a create builds a
 new one.
 */
module InPlaceTable {
  import opened Basics
  import opened Messages
  import opened MspTable

  /** `indexOfMSPID`. */
  method FindIndex(infos: array<MSPInfo>, id: Bytes) returns (idx: int)
    ensures idx == IndexOf(infos[..], id)
  {
    for i := 0 to infos.Length
      invariant IndexOf(infos[..], id) == if IndexOf(infos[i..], id) == -1 then -1 else i + IndexOf(infos[i..], id)
    {
      if infos[i].mspId == id {
        return i;
      }
      assert infos[i..][1..] == infos[i + 1..];
    }
    return -1;
  }

  /** One round of the copying loop of `createMSPInfo`. */
  lemma CopyStep(done: Infos, x: MSPInfo, rest: Infos, n: MSPInfo)
    ensures done + ([x] + rest) == (done + [x]) + rest
    ensures Less(n.mspId, x.mspId) ==> done + Insert([x] + rest, n) == (done + [n, x]) + rest
    ensures !Less(n.mspId, x.mspId) ==> done + Insert([x] + rest, n) == (done + [x]) + Insert(rest, n)
  {
    assert ([x] + rest)[1..] == rest;
  }

  /** `createMSPInfo`: copies the table into a new slice, with the new entry in its place. */
  method CreateMSPInfo(infos: array<MSPInfo>, mh: MSPHeader) returns (r: array<MSPInfo>)
    ensures fresh(r) && r[..] == Insert(infos[..], NewInfo(mh))
  {
    var newInfos: Infos, appended := [], false;
    ghost var all, n := infos[..], NewInfo(mh);
    assert all[0..] == all;
    assert Insert([], n) == [n];
    hide Less, Insert;
    for i := 0 to infos.Length
      invariant Insert(all, n) == newInfos + if appended then all[i..] else Insert(all[i..], n)
    {
      var info := infos[i];
      assert all[i..] == [info] + all[i + 1..];
      CopyStep(newInfos, info, all[i + 1..], n);
      if !appended && Less(mh.mspId, info.mspId) {
        newInfos := newInfos + [NewInfo(mh), info];
        appended := true;
        continue;
      }
      newInfos := newInfos + [info];
    }
    if !appended {
      newInfos := newInfos + [NewInfo(mh)];
    }
    assert newInfos == Insert(all, n);
    r := new MSPInfo[|newInfos|](i requires 0 <= i < |newInfos| => newInfos[i]);
    assert r[..] == newInfos;
  }

  /** `updateMSPConfig`, `updateMSPPolicy` and `freezeMSPInfo`: false is the panic of indexing at -1. */
  method ReviseMSPInfo(infos: array<MSPInfo>, mh: MSPHeader) returns (ok: bool)
    requires KnownType(mh) && mh.typ != CREATE
    modifies infos
    ensures ok <==> ApplyHeader(old(infos[..]), mh).Some?
    ensures ok ==> infos[..] == ApplyHeader(old(infos[..]), mh).value
  {
    var idx := FindIndex(infos, mh.mspId);
    if idx == -1 {
      return false;
    }
    infos[idx] := Revised(infos[idx], mh);
    return true;
  }

  /** The headers that still write into the array the batch began with. */
  function BeforeFirstCreate(hs: seq<MSPHeader>): (r: seq<MSPHeader>)
    ensures forall h :: h in r ==> h in hs && h.typ != CREATE
  {
    if hs == [] || hs[0].typ == CREATE then [] else [hs[0]] + BeforeFirstCreate(hs[1..])
  }

  /**
   `updateMSPInfos`. The table it returns is the batch applied to the old one; the
   caller's own table has meanwhile become the old one with only the headers before
   the first create applied.
   */
  method UpdateMSPInfos(infos: array<MSPInfo>, hs: seq<MSPHeader>) returns (ok: bool, r: array<MSPInfo>)
    modifies infos
    ensures ok <==> ApplyAll(old(infos[..]), hs).Some?
    ensures ok ==> r[..] == ApplyAll(old(infos[..]), hs).value
    ensures ok ==> ApplyAll(old(infos[..]), BeforeFirstCreate(hs)) == Some(infos[..])
    ensures r == infos || fresh(r)
  {
    hide IndexOf, Insert, Revised;
    r := infos;
    ghost var before := infos[..];
    ghost var own := BeforeFirstCreate(hs);
    for i := 0 to |hs|
      invariant r == infos || fresh(r)
      invariant r == infos ==> ApplyAll(before, own) == ApplyAll(infos[..], BeforeFirstCreate(hs[i..]))
      invariant r != infos ==> ApplyAll(before, own) == Some(infos[..])
      invariant ApplyAll(before, hs) == ApplyAll(r[..], hs[i..])
    {
      var mh := hs[i];
      assert hs[i..][1..] == hs[i + 1..];
      if !KnownType(mh) {
        return false, r;
      }
      if mh.typ == CREATE {
        r := CreateMSPInfo(r, mh);
      } else {
        assert r == infos ==> BeforeFirstCreate(hs[i..]) == [mh] + BeforeFirstCreate(hs[i + 1..]);
        ok := ReviseMSPInfo(r, mh);
        if !ok {
          return false, r;
        }
      }
    }
    return true, r;
  }

  /** A batch without creates leaves the map alone exactly when each of its headers does. */
  lemma KeptMap(t: Table, hs: seq<MSPHeader>)
    requires DistinctIds(hs) && AllSuit(t, hs) && forall h :: h in hs ==> h.typ != CREATE
    ensures Simultaneous(t, hs) == t <==> forall h :: h in hs ==> Revised(t[h.mspId], h) == t[h.mspId]
  {
    hide Simultaneous, Revised;
    if forall h :: h in hs ==> Revised(t[h.mspId], h) == t[h.mspId] {
      forall id
        ensures id in Simultaneous(t, hs) <==> id in t
        ensures id in t ==> Simultaneous(t, hs)[id] == t[id]
      {
        if id in HeaderIds(hs) {
          SimultaneousNamed(t, hs, HeaderFor(hs, id));
        } else {
          SimultaneousOther(t, hs, id);
        }
      }
    } else {
      var h :| h in hs && Revised(t[h.mspId], h) != t[h.mspId];
      SimultaneousNamed(t, hs, h);
    }
  }

  /** Updates that each leave their entry as it is leave the list as it is. */
  lemma {:induction false} NothingRevised(infos: Infos, hs: seq<MSPHeader>)
    requires AllSuit(View(infos), hs)
    requires forall h :: h in hs ==> h.typ != CREATE && Revised(View(infos)[h.mspId], h) == View(infos)[h.mspId]
    ensures ApplyAll(infos, hs) == Some(infos)
    decreases |hs|
  {
    hide Revised, View;
    if hs != [] {
      var h := hs[0];
      assert h in hs && Suits(View(infos), h);
      ViewIndex(infos, h.mspId);
      var idx := IndexOf(infos, h.mspId);
      assert infos[idx := Revised(infos[idx], h)] == infos;
      NothingRevised(infos, hs[1..]);
    }
  }

  /**
   The caller's table, in whatever order, is left as it was exactly when no header before
   the first create changes the entry it names.
   */
  lemma CallerTableKept(infos: Infos, hs: seq<MSPHeader>)
    requires DistinctIds(hs) && AllSuit(View(infos), hs)
    ensures ApplyAll(infos, BeforeFirstCreate(hs)) == Some(infos)
        <==> forall h :: h in BeforeFirstCreate(hs) ==> Revised(View(infos)[h.mspId], h) == View(infos)[h.mspId]
  {
    var own := BeforeFirstCreate(hs);
    OwnDistinct(hs);
    ApplyAllRefines(infos, own);
    KeptMap(View(infos), own);
    hide ApplyAll, View, Simultaneous, Revised;
    if forall h :: h in own ==> Revised(View(infos)[h.mspId], h) == View(infos)[h.mspId] {
      NothingRevised(infos, own);
    }
  }

  lemma {:induction false} OwnDistinct(hs: seq<MSPHeader>)
    requires DistinctIds(hs)
    ensures DistinctIds(BeforeFirstCreate(hs))
    decreases |hs|
  {
    if hs != [] && hs[0].typ != CREATE {
      OwnDistinct(hs[1..]);
      var rest := BeforeFirstCreate(hs[1..]);
      forall k | 0 <= k < |rest|
        ensures rest[k].mspId != hs[0].mspId
      {
        assert rest[k] in hs[1..];
      }
    }
  }
}

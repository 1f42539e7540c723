/**
 The MSP table of a client state: a list kept in ascending order of MSP ID, and the
 four ways an MSP header changes it. The list is related to the map from MSP IDs to
 entries that it stands for.
 */
module MspTable {
  import opened Basics
  import opened Messages

  type Infos = seq<MSPInfo>
  type Table = map<Bytes, MSPInfo>

  predicate Ascending(infos: Infos) {
    forall i, j :: 0 <= i < j < |infos| ==> Less(infos[i].mspId, infos[j].mspId)
  }

  predicate Distinct(infos: Infos) {
    forall i, j :: 0 <= i < j < |infos| ==> infos[i].mspId != infos[j].mspId
  }

  /** `indexOfMSPID`: the first index holding the ID, or -1. */
  function IndexOf(infos: Infos, id: Bytes): (idx: int)
    ensures -1 <= idx < |infos|
    ensures idx >= 0 ==> infos[idx].mspId == id && forall k :: 0 <= k < idx ==> infos[k].mspId != id
    ensures idx == -1 ==> forall k :: 0 <= k < |infos| ==> infos[k].mspId != id
  {
    if infos == [] then -1
    else if infos[0].mspId == id then 0
    else
      var rest := IndexOf(infos[1..], id);
      assert forall k :: 0 < k < |infos| ==> infos[k] == infos[1..][k - 1];
      if rest == -1 then -1 else rest + 1
  }

  /** The map a list stands for; the first entry of an ID counts, as it does for `indexOfMSPID`. */
  ghost function View(infos: Infos): Table
    decreases |infos|
  {
    if infos == [] then map[] else View(infos[1..])[infos[0].mspId := infos[0]]
  }

  // ---------------------------------------------------------------- the source's operations

  function NewInfo(mh: MSPHeader): MSPInfo {
    MSPInfo(mh.mspId, mh.config, mh.policy, false)
  }

  /** What `createMSPInfo` leaves: the new entry before the first larger ID, or at the end. */
  function Insert(infos: Infos, info: MSPInfo): (r: Infos)
    ensures |r| == |infos| + 1
  {
    if infos == [] then [info]
    else if Less(info.mspId, infos[0].mspId) then [info] + infos
    else [infos[0]] + Insert(infos[1..], info)
  }

  /** What an update or a freeze makes of the entry it finds. */
  function Revised(info: MSPInfo, mh: MSPHeader): MSPInfo {
    if mh.typ == UPDATE_POLICY then info.(policy := mh.policy)
    else if mh.typ == UPDATE_CONFIG then info.(config := mh.config)
    else info.(freezed := true)
  }

  predicate KnownType(mh: MSPHeader) {
    CREATE <= mh.typ <= FREEZE
  }

  /** `updateMSPInfo`: None is a panic, from an unknown type or from indexing at -1. */
  function ApplyHeader(infos: Infos, mh: MSPHeader): Option<Infos> {
    if !KnownType(mh) then None
    else if mh.typ == CREATE then Some(Insert(infos, NewInfo(mh)))
    else
      var idx := IndexOf(infos, mh.mspId);
      if idx == -1 then None else Some(infos[idx := Revised(infos[idx], mh)])
  }

  /** `updateMSPInfos`: the headers one after the other. */
  function ApplyAll(infos: Infos, hs: seq<MSPHeader>): Option<Infos>
    decreases |hs|
  {
    if hs == [] then Some(infos)
    else
      match ApplyHeader(infos, hs[0])
      case None => None
      case Some(next) => ApplyAll(next, hs[1..])
  }

  // ---------------------------------------------------------------- the reference: a map updated at once

  /** A header that suits a table: a create for an unknown ID, anything else for a known one. */
  predicate Suits(t: Table, mh: MSPHeader) {
    if mh.mspId in t then mh.typ == UPDATE_POLICY || mh.typ == UPDATE_CONFIG || mh.typ == FREEZE else mh.typ == CREATE
  }

  ghost predicate AllSuit(t: Table, hs: seq<MSPHeader>) {
    forall h :: h in hs ==> Suits(t, h)
  }

  predicate DistinctIds(hs: seq<MSPHeader>) {
    forall i, j :: 0 <= i < j < |hs| ==> hs[i].mspId != hs[j].mspId
  }

  function NewEntry(t: Table, mh: MSPHeader): MSPInfo
    requires Suits(t, mh)
  {
    if mh.typ == CREATE then NewInfo(mh) else Revised(t[mh.mspId], mh)
  }

  ghost function HeaderIds(hs: seq<MSPHeader>): set<Bytes> {
    set h | h in hs :: h.mspId
  }

  ghost function HeaderFor(hs: seq<MSPHeader>, id: Bytes): (h: MSPHeader)
    requires id in HeaderIds(hs)
    ensures h in hs && h.mspId == id
  {
    var h :| h in hs && h.mspId == id; h
  }

  /** Every ID named by the batch gets the entry its header gives it, all from the same old table. */
  ghost function Simultaneous(t: Table, hs: seq<MSPHeader>): Table
    requires AllSuit(t, hs)
  {
    map id | id in t.Keys + HeaderIds(hs) ::
      if id in HeaderIds(hs) then NewEntry(t, HeaderFor(hs, id)) else t[id]
  }

  // ---------------------------------------------------------------- lemmas

  /** The map and the search agree on every list. */
  lemma {:induction false} ViewIndex(infos: Infos, id: Bytes)
    ensures id in View(infos) <==> IndexOf(infos, id) >= 0
    ensures id in View(infos) ==> View(infos)[id] == infos[IndexOf(infos, id)] && View(infos)[id].mspId == id
    decreases |infos|
  {
    if infos != [] {
      ViewIndex(infos[1..], id);
    }
  }

  ghost predicate AllAbove(id: Bytes, t: Table) {
    forall x :: x in t ==> Less(id, x)
  }

  /** A list is ascending when its head is below everything in an ascending tail. */
  lemma AscendingCons(infos: Infos)
    requires infos != []
    ensures Ascending(infos) <==> Ascending(infos[1..]) && AllAbove(infos[0].mspId, View(infos[1..]))
  {
    var head, tail := infos[0].mspId, infos[1..];
    assert forall k :: 0 < k < |infos| ==> infos[k] == tail[k - 1];
    if Ascending(infos) {
      forall x | x in View(tail)
        ensures Less(head, x)
      {
        ViewIndex(tail, x);
        assert infos[IndexOf(tail, x) + 1].mspId == x;
      }
    }
    if Ascending(tail) && AllAbove(head, View(tail)) {
      forall i, j | 0 <= i < j < |infos|
        ensures Less(infos[i].mspId, infos[j].mspId)
      {
        if i == 0 {
          ViewIndex(tail, tail[j - 1].mspId);
        } else {
          assert infos[i] == tail[i - 1] && infos[j] == tail[j - 1];
        }
      }
    }
  }

  lemma ViewEmpty(infos: Infos)
    ensures infos == [] <==> View(infos).Keys == {}
  {
    if infos != [] {
      assert infos[0].mspId in View(infos);
    }
  }

  /** An ascending list is determined by its map: sorted tables have one form. */
  lemma {:induction false} Canonical(a: Infos, b: Infos)
    requires Ascending(a) && Ascending(b) && View(a) == View(b)
    ensures a == b
    decreases |a|
  {
    hide Ascending;
    if a == [] || b == [] {
      ViewEmpty(a);
      ViewEmpty(b);
    } else {
      AscendingCons(a);
      AscendingCons(b);
      SameHead(a[0], View(a[1..]), b[0], View(b[1..]));
      Canonical(a[1..], b[1..]);
      assert a == [a[0]] + a[1..] && b == [b[0]] + b[1..];
    }
  }

  /** A map with a least key splits in only one way into that key and the rest. */
  lemma SameHead(x: MSPInfo, t: Table, y: MSPInfo, u: Table)
    requires AllAbove(x.mspId, t) && AllAbove(y.mspId, u)
    requires t[x.mspId := x] == u[y.mspId := y]
    ensures x == y && t == u
  {
    var whole := t[x.mspId := x];
    assert x.mspId in whole && y.mspId in whole;
    if x.mspId != y.mspId {
      LessAsymmetric(x.mspId, y.mspId);
    }
    assert whole[x.mspId] == x && whole[y.mspId] == y;
    LessIrreflexive(x.mspId);
    assert t == whole - {x.mspId} && u == whole - {y.mspId};
  }

  lemma {:induction false} InsertView(infos: Infos, info: MSPInfo)
    requires info.mspId !in View(infos)
    ensures View(Insert(infos, info)) == View(infos)[info.mspId := info]
    decreases |infos|
  {
    var r := Insert(infos, info);
    if infos == [] {
      assert r[1..] == [];
    } else if Less(info.mspId, infos[0].mspId) {
      assert r[1..] == infos;
    } else {
      InsertView(infos[1..], info);
      assert r[1..] == Insert(infos[1..], info);
      UpdatesCommute(View(infos[1..]), info.mspId, info, infos[0].mspId, infos[0]);
    }
  }

  lemma {:induction false} InsertAscending(infos: Infos, info: MSPInfo)
    requires Ascending(infos) && info.mspId !in View(infos)
    ensures Ascending(Insert(infos, info))
    decreases |infos|
  {
    var r := Insert(infos, info);
    if infos != [] {
      AscendingCons(infos);
      AscendingCons(r);
      hide Ascending;
      if Less(info.mspId, infos[0].mspId) {
        assert r[1..] == infos;
        forall x | x in View(infos)
          ensures Less(info.mspId, x)
        {
          if x != infos[0].mspId {
            LessTransitive(info.mspId, infos[0].mspId, x);
          }
        }
      } else {
        InsertAscending(infos[1..], info);
        InsertView(infos[1..], info);
        assert r[1..] == Insert(infos[1..], info);
        LessTotal(info.mspId, infos[0].mspId);
      }
    }
  }

  /** A list has distinct IDs when its head is not in the map of a tail with distinct IDs. */
  lemma DistinctCons(infos: Infos)
    requires infos != []
    ensures Distinct(infos) <==> Distinct(infos[1..]) && infos[0].mspId !in View(infos[1..])
  {
    var tail := infos[1..];
    ViewIndex(tail, infos[0].mspId);
    assert forall k :: 0 < k < |infos| ==> infos[k] == tail[k - 1];
    if Distinct(tail) && infos[0].mspId !in View(tail) {
      forall i, j | 0 <= i < j < |infos|
        ensures infos[i].mspId != infos[j].mspId
      {
        assert infos[j] == tail[j - 1];
        assert i > 0 ==> infos[i] == tail[i - 1];
      }
    }
    if Distinct(infos) {
      assert forall i :: 0 <= i < |tail| ==> tail[i] == infos[i + 1];
    }
  }

  lemma {:induction false} InsertDistinct(infos: Infos, info: MSPInfo)
    requires Distinct(infos) && info.mspId !in View(infos)
    ensures Distinct(Insert(infos, info))
    decreases |infos|
  {
    var r := Insert(infos, info);
    if infos != [] {
      DistinctCons(infos);
      DistinctCons(r);
      hide Distinct;
      if Less(info.mspId, infos[0].mspId) {
        assert r[1..] == infos;
      } else {
        InsertDistinct(infos[1..], info);
        InsertView(infos[1..], info);
        assert r[1..] == Insert(infos[1..], info);
      }
    }
  }

  /** A list keeps what order and distinctness of IDs it has. */
  predicate AsOrderly(before: Infos, after: Infos) {
    (Ascending(before) ==> Ascending(after)) && (Distinct(before) ==> Distinct(after))
  }

  /** In any list the insertion adds one entry to the map, and keeps what order there is. */
  lemma InsertRefines(infos: Infos, info: MSPInfo)
    requires info.mspId !in View(infos)
    ensures View(Insert(infos, info)) == View(infos)[info.mspId := info]
    ensures AsOrderly(infos, Insert(infos, info))
  {
    hide Ascending, Distinct, Insert, View;
    InsertView(infos, info);
    if Ascending(infos) {
      InsertAscending(infos, info);
    }
    if Distinct(infos) {
      InsertDistinct(infos, info);
    }
  }

  /** In any list the element write changes one entry of the map; it never changes the order. */
  lemma {:induction false} ReviseRefines(infos: Infos, mh: MSPHeader)
    requires mh.mspId in View(infos)
    ensures IndexOf(infos, mh.mspId) >= 0
    ensures var idx := IndexOf(infos, mh.mspId);
            var r := infos[idx := Revised(infos[idx], mh)];
            View(r) == View(infos)[mh.mspId := Revised(infos[idx], mh)] && AsOrderly(infos, r)
    decreases |infos|
  {
    ViewIndex(infos, mh.mspId);
    var idx := IndexOf(infos, mh.mspId);
    var info := Revised(infos[idx], mh);
    var r := infos[idx := info];
    RevisedKeepsId(infos[idx], mh);
    assert forall k :: 0 <= k < |infos| ==> r[k].mspId == infos[k].mspId;
    hide Revised;
    if idx == 0 {
      assert r[1..] == infos[1..];
    } else {
      ReviseRefines(infos[1..], mh);
      assert r[1..] == infos[1..][idx - 1 := info];
      UpdatesCommute(View(infos[1..]), mh.mspId, info, infos[0].mspId, infos[0]);
    }
  }

  lemma UpdatesCommute(t: Table, x: Bytes, a: MSPInfo, y: Bytes, b: MSPInfo)
    requires x != y
    ensures var left: Table := t[x := a]; var right: Table := t[y := b]; left[y := b] == right[x := a]
  {}

  lemma RevisedKeepsId(info: MSPInfo, mh: MSPHeader)
    ensures Revised(info, mh).mspId == info.mspId
  {}

  /** One header on the list is one map update, and keeps what order there is. */
  lemma ApplyHeaderRefines(infos: Infos, mh: MSPHeader)
    requires Suits(View(infos), mh)
    ensures ApplyHeader(infos, mh).Some?
    ensures View(ApplyHeader(infos, mh).value) == View(infos)[mh.mspId := NewEntry(View(infos), mh)]
    ensures AsOrderly(infos, ApplyHeader(infos, mh).value)
  {
    if mh.typ == CREATE {
      InsertRefines(infos, NewInfo(mh));
    } else {
      ReviseRefines(infos, mh);
      ViewIndex(infos, mh.mspId);
    }
  }

  /** The entry of an ID that the batch names. */
  lemma SimultaneousNamed(t: Table, hs: seq<MSPHeader>, h: MSPHeader)
    requires DistinctIds(hs) && AllSuit(t, hs) && h in hs
    ensures h.mspId in Simultaneous(t, hs) && Simultaneous(t, hs)[h.mspId] == NewEntry(t, h)
  {
    hide NewEntry, Suits;
    UniqueHeader(hs, h);
    assert h.mspId in HeaderIds(hs);
  }

  /** The entry of one that it does not. */
  lemma SimultaneousOther(t: Table, hs: seq<MSPHeader>, id: Bytes)
    requires AllSuit(t, hs) && id !in HeaderIds(hs)
    ensures id in Simultaneous(t, hs) <==> id in t
    ensures id in t ==> Simultaneous(t, hs)[id] == t[id]
  {
    hide NewEntry, Suits;
  }

  /** After the first header of a batch, the others still suit and still mean the same. */
  lemma RestUnaffected(t: Table, t': Table, hs: seq<MSPHeader>)
    requires hs != [] && DistinctIds(hs) && AllSuit(t, hs)
    requires t' == t[hs[0].mspId := NewEntry(t, hs[0])]
    ensures AllSuit(t', hs[1..]) && DistinctIds(hs[1..])
    ensures forall h :: h in hs[1..] ==> h in hs && h.mspId != hs[0].mspId && NewEntry(t', h) == NewEntry(t, h)
    ensures HeaderIds(hs) == {hs[0].mspId} + HeaderIds(hs[1..])
  {
    assert forall h :: h in hs[1..] ==> h in hs && h.mspId != hs[0].mspId && Suits(t, h);
    assert forall h :: h in hs ==> h == hs[0] || h in hs[1..];
  }

  lemma SimultaneousStep(t: Table, t': Table, hs: seq<MSPHeader>)
    requires hs != [] && DistinctIds(hs) && AllSuit(t, hs)
    requires t' == t[hs[0].mspId := NewEntry(t, hs[0])]
    ensures AllSuit(t', hs[1..]) && DistinctIds(hs[1..])
    ensures Simultaneous(t', hs[1..]) == Simultaneous(t, hs)
  {
    var rest := hs[1..];
    RestUnaffected(t, t', hs);
    hide Simultaneous, NewEntry, Suits, DistinctIds, AllSuit;
    forall id
      ensures id in Simultaneous(t', rest) <==> id in Simultaneous(t, hs)
      ensures id in Simultaneous(t, hs) ==> Simultaneous(t', rest)[id] == Simultaneous(t, hs)[id]
    {
      if id in HeaderIds(rest) {
        SimultaneousNamed(t, hs, HeaderFor(rest, id));
        SimultaneousNamed(t', rest, HeaderFor(rest, id));
      } else {
        SimultaneousOther(t', rest, id);
        if id == hs[0].mspId {
          SimultaneousNamed(t, hs, hs[0]);
        } else {
          SimultaneousOther(t, hs, id);
        }
      }
    }
  }

  lemma UniqueHeader(hs: seq<MSPHeader>, h: MSPHeader)
    requires DistinctIds(hs) && h in hs
    ensures forall g :: g in hs && g.mspId == h.mspId ==> g == h
  {}

  /**
   Applying a batch header by header, on a list in any order, is the simultaneous update
   of the map: no step panics. What order and distinctness the list has it keeps.
   */
  lemma {:induction false} ApplyAllRefines(infos: Infos, hs: seq<MSPHeader>)
    requires DistinctIds(hs) && AllSuit(View(infos), hs)
    ensures ApplyAll(infos, hs).Some?
    ensures View(ApplyAll(infos, hs).value) == Simultaneous(View(infos), hs)
    ensures AsOrderly(infos, ApplyAll(infos, hs).value)
    decreases |hs|
  {
    hide Ascending, Distinct;
    if hs == [] {
      assert HeaderIds(hs) == {};
      assert Simultaneous(View(infos), hs) == View(infos);
    } else {
      ApplyHeaderRefines(infos, hs[0]);
      var next := ApplyHeader(infos, hs[0]).value;
      SimultaneousStep(View(infos), View(next), hs);
      ApplyAllRefines(next, hs[1..]);
    }
  }

  /** The order in which a batch is applied does not matter to the map, nor to an ascending list. */
  lemma OrderIndependent(infos: Infos, hs: seq<MSPHeader>, gs: seq<MSPHeader>)
    requires DistinctIds(hs) && AllSuit(View(infos), hs)
    requires multiset(hs) == multiset(gs)
    ensures ApplyAll(infos, hs).Some? && ApplyAll(infos, gs).Some?
    ensures View(ApplyAll(infos, gs).value) == View(ApplyAll(infos, hs).value)
    ensures Ascending(infos) ==> ApplyAll(infos, gs) == ApplyAll(infos, hs)
  {
    forall h
      ensures h in hs <==> h in gs
    {
      assert h in hs <==> h in multiset(hs);
      assert h in gs <==> h in multiset(gs);
    }
    PermutedDistinct(hs, gs);
    SameSimultaneous(View(infos), hs, gs);
    ApplyAllRefines(infos, hs);
    ApplyAllRefines(infos, gs);
    hide ApplyAll, Simultaneous, Ascending, View;
    if Ascending(infos) {
      Canonical(ApplyAll(infos, hs).value, ApplyAll(infos, gs).value);
    }
  }

  /** The simultaneous update depends only on which headers the batch holds. */
  lemma SameSimultaneous(t: Table, hs: seq<MSPHeader>, gs: seq<MSPHeader>)
    requires DistinctIds(hs) && AllSuit(t, hs)
    requires forall h :: h in hs <==> h in gs
    ensures AllSuit(t, gs) && Simultaneous(t, hs) == Simultaneous(t, gs)
  {
    hide NewEntry, Suits;
    assert HeaderIds(hs) == HeaderIds(gs);
    forall id | id in HeaderIds(hs)
      ensures HeaderFor(hs, id) == HeaderFor(gs, id)
    {
      UniqueHeader(hs, HeaderFor(hs, id));
    }
  }

  lemma PermutedDistinct(hs: seq<MSPHeader>, gs: seq<MSPHeader>)
    requires DistinctIds(hs) && multiset(hs) == multiset(gs)
    ensures DistinctIds(gs)
  {
    forall i, j | 0 <= i < j < |gs|
      ensures gs[i].mspId != gs[j].mspId
    {
      if gs[i].mspId == gs[j].mspId {
        assert gs[i] in multiset(hs) && gs[j] in multiset(hs);
        UniqueHeader(hs, gs[i]);
        assert gs[i] == gs[j];
        TwiceInMultiset(gs, i, j);
        OnceInMultiset(hs, gs[i]);
      }
    }
  }

  lemma TwiceInMultiset(s: seq<MSPHeader>, i: nat, j: nat)
    requires i < j < |s| && s[i] == s[j]
    ensures multiset(s)[s[i]] >= 2
  {
    assert s == s[..j] + [s[j]] + s[j + 1..];
    assert s[i] in s[..j];
  }

  lemma {:induction false} OnceInMultiset(s: seq<MSPHeader>, h: MSPHeader)
    requires DistinctIds(s)
    ensures multiset(s)[h] <= 1
    decreases |s|
  {
    if s != [] {
      var n := |s| - 1;
      assert s == s[..n] + [s[n]];
      OnceInMultiset(s[..n], h);
      if s[n] == h && h in s[..n] {
        assert false;
      }
    }
  }

  // ---------------------------------------------------------------- the entries of one MSP

  /** All entries of one ID, in order; a table may hold several. */
  function Entries(infos: Infos, id: Bytes): Infos {
    if infos == [] then []
    else if infos[0].mspId == id then [infos[0]] + Entries(infos[1..], id)
    else Entries(infos[1..], id)
  }

  lemma {:induction false} EntriesAt(infos: Infos, id: Bytes)
    ensures forall x :: x in Entries(infos, id) <==> x in infos && x.mspId == id
    decreases |infos|
  {
    if infos != [] {
      EntriesAt(infos[1..], id);
      assert infos == [infos[0]] + infos[1..];
    }
  }

  lemma {:induction false} InsertKeepsEntries(infos: Infos, info: MSPInfo, id: Bytes)
    requires info.mspId != id
    ensures Entries(Insert(infos, info), id) == Entries(infos, id)
    decreases |infos|
  {
    var r := Insert(infos, info);
    if infos == [] {
      assert r[1..] == [];
    } else if Less(info.mspId, infos[0].mspId) {
      assert r[1..] == infos;
    } else {
      InsertKeepsEntries(infos[1..], info, id);
      assert r[1..] == Insert(infos[1..], info);
    }
  }

  lemma {:induction false} WriteKeepsEntries(infos: Infos, idx: nat, info: MSPInfo, id: Bytes)
    requires idx < |infos| && infos[idx].mspId != id && info.mspId != id
    ensures Entries(infos[idx := info], id) == Entries(infos, id)
    decreases |infos|
  {
    var r := infos[idx := info];
    if idx == 0 {
      assert r[1..] == infos[1..];
    } else {
      WriteKeepsEntries(infos[1..], idx - 1, info, id);
      assert r[1..] == infos[1..][idx - 1 := info];
    }
  }

  /** A batch leaves every entry of an ID that it does not name. */
  lemma {:induction false} BatchKeepsEntries(infos: Infos, hs: seq<MSPHeader>, id: Bytes)
    requires ApplyAll(infos, hs).Some? && forall h :: h in hs ==> h.mspId != id
    ensures Entries(ApplyAll(infos, hs).value, id) == Entries(infos, id)
    decreases |hs|
  {
    if hs != [] {
      var h := hs[0];
      var next := ApplyHeader(infos, h).value;
      if h.typ == CREATE {
        InsertKeepsEntries(infos, NewInfo(h), id);
      } else {
        var idx := IndexOf(infos, h.mspId);
        RevisedKeepsId(infos[idx], h);
        WriteKeepsEntries(infos, idx, Revised(infos[idx], h), id);
      }
      hide ApplyHeader, Entries;
      BatchKeepsEntries(next, hs[1..], id);
    }
  }
}

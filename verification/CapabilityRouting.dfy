/**
 * The capability index (crates/mxdx-coordinator/src/index.rs) against the router's scan of its
 * workers (crates/mxdx-coordinator/src/router.rs).
 */
module CapabilityRouting {
  import opened Common

  datatype Tool = Tool(name: string, healthy: bool)
  datatype Info = Info(workerId: string, capabilities: seq<string>, tools: seq<Tool>)

  /** A worker offers its capabilities and its healthy tools. */
  predicate Offers(info: Info, name: string) {
    || name in info.capabilities
    || exists k :: 0 <= k < |info.tools| && info.tools[k].healthy && info.tools[k].name == name
  }

  predicate OffersAll(info: Info, names: seq<string>) {
    forall k :: 0 <= k < |names| ==> Offers(info, names[k])
  }

  // ---------------------------------------------------------------------------
  // The index
  // ---------------------------------------------------------------------------

  type Lists = map<string, seq<string>>

  datatype Index = Index(lists: Lists, workers: map<string, Info>)

  const EMPTY := Index(map[], map[])

  function Without(ids: seq<string>, id: string): seq<string> {
    if ids == [] then []
    else if ids[0] == id then Without(ids[1..], id)
    else [ids[0]] + Without(ids[1..], id)
  }

  lemma {:induction false} WithoutMembers(ids: seq<string>, id: string)
    ensures forall x :: x in Without(ids, id) <==> x in ids && x != id
  {
    if ids != [] {
      WithoutMembers(ids[1..], id);
      assert ids == [ids[0]] + ids[1..];
    }
  }

  function Purged(lists: Lists, id: string): Lists {
    map c | c in lists && Without(lists[c], id) != [] :: Without(lists[c], id)
  }

  function Removed(index: Index, id: string): Index {
    Index(Purged(index.lists, id), index.workers - {id})
  }

  function Pushed(lists: Lists, name: string, id: string): Lists {
    lists[name := (if name in lists then lists[name] else []) + [id]]
  }

  function PushedAll(lists: Lists, names: seq<string>, id: string): Lists {
    if names == [] then lists else Pushed(PushedAll(lists, names[..|names| - 1], id), names[|names| - 1], id)
  }

  /** The names of the healthy tools, in order. */
  function HealthyNames(tools: seq<Tool>): seq<string> {
    if tools == [] then []
    else
      var t := tools[|tools| - 1];
      if t.healthy then HealthyNames(tools[..|tools| - 1]) + [t.name] else HealthyNames(tools[..|tools| - 1])
  }

  function Updated(index: Index, info: Info): Index {
    var r := Removed(index, info.workerId);
    Index(PushedAll(PushedAll(r.lists, info.capabilities, info.workerId), HealthyNames(info.tools), info.workerId),
          r.workers[info.workerId := info])
  }

  predicate Listed(lists: Lists, name: string, id: string) {
    name in lists && id in lists[name]
  }

  ghost predicate NoEmptyList(lists: Lists) {
    forall c :: c in lists ==> lists[c] != []
  }

  /** The lists say exactly what the stored infos offer. */
  ghost predicate Agrees(index: Index) {
    && NoEmptyList(index.lists)
    && forall name, id :: Listed(index.lists, name, id) <==> id in index.workers && Offers(index.workers[id], name)
  }

  lemma PurgedListed(lists: Lists, id: string)
    ensures NoEmptyList(Purged(lists, id))
    ensures forall name, x :: Listed(Purged(lists, id), name, x) <==> Listed(lists, name, x) && x != id
  {
    forall name, x ensures Listed(Purged(lists, id), name, x) <==> Listed(lists, name, x) && x != id {
      if name in lists {
        WithoutMembers(lists[name], id);
        if x in lists[name] && x != id {
          assert x in Without(lists[name], id);
        }
      }
    }
  }

  lemma PushedListed(lists: Lists, pushed: string, id: string)
    ensures forall name, x ::
      Listed(Pushed(lists, pushed, id), name, x) <==> Listed(lists, name, x) || (x == id && name == pushed)
  {
  }

  lemma {:induction false} PushedAllListed(lists: Lists, names: seq<string>, id: string)
    requires NoEmptyList(lists)
    ensures NoEmptyList(PushedAll(lists, names, id))
    ensures forall name, x ::
      Listed(PushedAll(lists, names, id), name, x) <==> Listed(lists, name, x) || (x == id && name in names)
  {
    hide Listed;
    if names != [] {
      var init, last := names[..|names| - 1], names[|names| - 1];
      PushedAllListed(lists, init, id);
      PushedListed(PushedAll(lists, init, id), last, id);
      assert names == init + [last];
      assert PushedAll(lists, names, id) == Pushed(PushedAll(lists, init, id), last, id);
    }
  }

  lemma {:induction false} HealthyNamesAre(tools: seq<Tool>, name: string)
    ensures name in HealthyNames(tools) <==> exists k :: 0 <= k < |tools| && tools[k].healthy && tools[k].name == name
  {
    if tools != [] {
      var n := |tools| - 1;
      HealthyNamesAre(tools[..n], name);
      if exists k :: 0 <= k < |tools| && tools[k].healthy && tools[k].name == name {
        var k :| 0 <= k < |tools| && tools[k].healthy && tools[k].name == name;
        if k < n {
          assert tools[..n][k] == tools[k];
        }
      }
    }
  }

  lemma RemovedAgrees(index: Index, id: string)
    requires Agrees(index)
    ensures Agrees(Removed(index, id))
  {
    hide Purged, Offers;
    PurgedListed(index.lists, id);
  }

  lemma UpdatedAgrees(index: Index, info: Info)
    requires Agrees(index)
    ensures Agrees(Updated(index, info))
  {
    hide Purged, PushedAll, HealthyNames;
    var id := info.workerId;
    PurgedListed(index.lists, id);
    var lists := Purged(index.lists, id);
    PushedAllListed(lists, info.capabilities, id);
    PushedAllListed(PushedAll(lists, info.capabilities, id), HealthyNames(info.tools), id);
    forall name ensures Offers(info, name) <==> name in info.capabilities || name in HealthyNames(info.tools) {
      HealthyNamesAre(info.tools, name);
    }
    hide Offers, Listed;
  }

  // ---------------------------------------------------------------------------
  // The router
  // ---------------------------------------------------------------------------

  datatype Entry = Entry(roomId: string, info: Info)

  function Registered(entries: seq<Entry>, room: string, info: Info): seq<Entry> {
    if entries == [] then [Entry(room, info)]
    else if entries[0].info.workerId == info.workerId then [Entry(room, info)] + entries[1..]
    else [entries[0]] + Registered(entries[1..], room, info)
  }

  function Unregistered(entries: seq<Entry>, id: string): seq<Entry> {
    if entries == [] then []
    else if entries[0].info.workerId == id then Unregistered(entries[1..], id)
    else [entries[0]] + Unregistered(entries[1..], id)
  }

  /** The first worker that offers everything required. */
  function Route(entries: seq<Entry>, required: seq<string>): Option<Entry> {
    if entries == [] then None
    else if OffersAll(entries[0].info, required) then Some(entries[0])
    else Route(entries[1..], required)
  }

  ghost predicate UniqueIds(entries: seq<Entry>) {
    forall i, j :: 0 <= i < j < |entries| ==> entries[i].info.workerId != entries[j].info.workerId
  }

  /** The router and the index know the same workers, with the same infos. */
  ghost predicate SameWorkers(entries: seq<Entry>, workers: map<string, Info>) {
    && UniqueIds(entries)
    && (forall e :: e in entries ==> e.info.workerId in workers && workers[e.info.workerId] == e.info)
    && (forall id :: id in workers ==> workers[id].workerId == id && Knows(entries, id))
  }

  predicate Knows(entries: seq<Entry>, id: string) {
    exists k :: 0 <= k < |entries| && entries[k].info.workerId == id
  }

  lemma {:induction false} RegisteredMembers(entries: seq<Entry>, room: string, info: Info)
    requires UniqueIds(entries)
    ensures UniqueIds(Registered(entries, room, info))
    ensures forall e :: e in Registered(entries, room, info) <==>
      e == Entry(room, info) || (e in entries && e.info.workerId != info.workerId)
  {
    if entries != [] {
      var head, tail := entries[0], entries[1..];
      assert entries == [head] + tail;
      if head.info.workerId == info.workerId {
        forall e | e in tail ensures e.info.workerId != info.workerId {
          var k :| 0 <= k < |tail| && tail[k] == e;
          assert entries[k + 1] == e;
        }
      } else {
        RegisteredMembers(tail, room, info);
        var r := Registered(tail, room, info);
        forall e | e in r ensures e.info.workerId != head.info.workerId {
          if e in tail {
            var k :| 0 <= k < |tail| && tail[k] == e;
            assert entries[k + 1] == e;
          }
        }
      }
    }
  }

  lemma {:induction false} UnregisteredMembers(entries: seq<Entry>, id: string)
    requires UniqueIds(entries)
    ensures UniqueIds(Unregistered(entries, id))
    ensures forall e :: e in Unregistered(entries, id) <==> e in entries && e.info.workerId != id
  {
    if entries != [] {
      var head, tail := entries[0], entries[1..];
      assert entries == [head] + tail;
      UnregisteredMembers(tail, id);
      forall e | e in tail ensures e.info.workerId != head.info.workerId {
        var k :| 0 <= k < |tail| && tail[k] == e;
        assert entries[k + 1] == e;
      }
    }
  }

  lemma KnowsIffMember(entries: seq<Entry>, id: string)
    ensures Knows(entries, id) <==> exists e :: e in entries && e.info.workerId == id
  {
    if e :| e in entries && e.info.workerId == id {
      var k :| 0 <= k < |entries| && entries[k] == e;
    }
  }

  lemma UpdateKeepsSame(entries: seq<Entry>, index: Index, room: string, info: Info)
    requires SameWorkers(entries, index.workers)
    ensures SameWorkers(Registered(entries, room, info), Updated(index, info).workers)
  {
    RegisteredMembers(entries, room, info);
    var r := Registered(entries, room, info);
    forall id | id in Updated(index, info).workers ensures Knows(r, id) {
      KnowsIffMember(r, id);
      if id == info.workerId {
        assert Entry(room, info) in r;
      } else {
        KnowsIffMember(entries, id);
        var e :| e in entries && e.info.workerId == id;
        assert e in r;
      }
    }
  }

  lemma RemoveKeepsSame(entries: seq<Entry>, index: Index, id: string)
    requires SameWorkers(entries, index.workers)
    ensures SameWorkers(Unregistered(entries, id), Removed(index, id).workers)
  {
    UnregisteredMembers(entries, id);
    var r := Unregistered(entries, id);
    forall x | x in Removed(index, id).workers ensures Knows(r, x) {
      KnowsIffMember(r, x);
      KnowsIffMember(entries, x);
      var e :| e in entries && e.info.workerId == x;
      assert e in r;
    }
  }

  // ---------------------------------------------------------------------------
  // Histories
  // ---------------------------------------------------------------------------

  datatype Action = Update(room: string, info: Info) | Remove(id: string)

  function IndexAfter(history: seq<Action>): Index {
    if history == [] then EMPTY
    else
      var before := IndexAfter(history[..|history| - 1]);
      match history[|history| - 1]
      case Update(_, info) => Updated(before, info)
      case Remove(id) => Removed(before, id)
  }

  function RouterAfter(history: seq<Action>): seq<Entry> {
    if history == [] then []
    else
      var before := RouterAfter(history[..|history| - 1]);
      match history[|history| - 1]
      case Update(room, info) => Registered(before, room, info)
      case Remove(id) => Unregistered(before, id)
  }

  lemma {:induction false} HistoryInv(history: seq<Action>)
    ensures Agrees(IndexAfter(history))
    ensures SameWorkers(RouterAfter(history), IndexAfter(history).workers)
  {
    hide Agrees, SameWorkers, Updated, Removed, Registered, Unregistered;
    if history == [] {
      EmptyAgrees();
    } else {
      var init := history[..|history| - 1];
      HistoryInv(init);
      match history[|history| - 1]
      case Update(room, info) =>
        UpdatedAgrees(IndexAfter(init), info);
        UpdateKeepsSame(RouterAfter(init), IndexAfter(init), room, info);
      case Remove(id) =>
        RemovedAgrees(IndexAfter(init), id);
        RemoveKeepsSame(RouterAfter(init), IndexAfter(init), id);
    }
  }

  lemma EmptyAgrees()
    ensures Agrees(EMPTY) && SameWorkers([], EMPTY.workers)
  {
  }

  /**
   * After any history of updates and removals, a worker is listed under a name if and only if its
   * stored info offers it, and no list is empty.
   */
  lemma IndexIsExact(history: seq<Action>, name: string, id: string)
    ensures var index := IndexAfter(history);
      && (Listed(index.lists, name, id) <==> id in index.workers && Offers(index.workers[id], name))
      && (name in index.lists ==> index.lists[name] != [])
  {
    HistoryInv(history);
  }

  // ---------------------------------------------------------------------------
  // Lookups
  // ---------------------------------------------------------------------------

  /** The members of `ids` that also occur in `others`. */
  function Filtered(ids: seq<string>, others: seq<string>): seq<string> {
    if ids == [] then []
    else if ids[|ids| - 1] in others then Filtered(ids[..|ids| - 1], others) + [ids[|ids| - 1]]
    else Filtered(ids[..|ids| - 1], others)
  }

  lemma {:induction false} FilteredMembers(ids: seq<string>, others: seq<string>)
    ensures forall x :: x in Filtered(ids, others) <==> x in ids && x in others
  {
    if ids != [] {
      var init := ids[..|ids| - 1];
      FilteredMembers(init, others);
      assert ids == init + [ids[|ids| - 1]];
    }
  }

  function WithCapability(index: Index, name: string): seq<string> {
    if name in index.lists then index.lists[name] else []
  }

  /** What `workers_with_all` should answer. */
  ghost predicate AnswersAll(index: Index, required: seq<string>, ids: seq<string>) {
    forall id :: id in ids <==> id in index.workers && OffersAll(index.workers[id], required)
  }

  /** `workers_with_all`: every worker, or the intersection of the lists of the required names. */
  method WorkersWithAll(index: Index, required: seq<string>) returns (ids: seq<string>)
    requires Agrees(index)
    ensures AnswersAll(index, required, ids)
  {
    if |required| == 0 {
      ids := KeysOf(index.workers.Keys);
      return;
    }
    ids := WithCapability(index, required[0]);
    assert forall id :: id in ids <==> Listed(index.lists, required[0], id);
    OneMore(index, required, 0);
    assert required[..0] == [];
    for k := 1 to |required|
      invariant AnswersAll(index, required[..k], ids)
    {
      var others := WithCapability(index, required[k]);
      FilteredMembers(ids, others);
      assert forall id :: id in others <==> Listed(index.lists, required[k], id);
      OneMore(index, required, k);
      ids := Filtered(ids, others);
    }
    assert required[..|required|] == required;
  }

  lemma OneMore(index: Index, required: seq<string>, k: nat)
    requires k < |required|
    ensures forall id :: id in index.workers ==>
      (OffersAll(index.workers[id], required[..k + 1])
       <==> OffersAll(index.workers[id], required[..k]) && Offers(index.workers[id], required[k]))
  {
    assert required[..k + 1] == required[..k] + [required[k]];
    forall id |
      && id in index.workers
      && OffersAll(index.workers[id], required[..k]) && Offers(index.workers[id], required[k])
      ensures OffersAll(index.workers[id], required[..k + 1])
    {
    }
    forall id | id in index.workers && OffersAll(index.workers[id], required[..k + 1])
      ensures OffersAll(index.workers[id], required[..k]) && Offers(index.workers[id], required[k])
    {
      assert required[..k + 1][k] == required[k];
      forall j | 0 <= j < k ensures Offers(index.workers[id], required[..k][j]) {
        assert required[..k][j] == required[..k + 1][j];
      }
    }
  }

  method KeysOf(keys: set<string>) returns (ids: seq<string>)
    ensures forall x :: x in ids <==> x in keys
  {
    ids := [];
    var rest := keys;
    while rest != {}
      invariant rest <= keys
      invariant forall x :: x in ids <==> x in keys && x !in rest
      decreases rest
    {
      var x :| x in rest;
      ids := ids + [x];
      rest := rest - {x};
    }
  }

  /** The first worker, in the order of the router, that offers everything required. */
  lemma {:induction false} RouteFinds(entries: seq<Entry>, required: seq<string>)
    ensures match Route(entries, required)
      case Some(e) => exists k :: 0 <= k < |entries| && entries[k] == e && OffersAll(e.info, required)
                        && forall j :: 0 <= j < k ==> !OffersAll(entries[j].info, required)
      case None => forall e :: e in entries ==> !OffersAll(e.info, required)
  {
    if entries != [] {
      if OffersAll(entries[0].info, required) {
        assert entries[0] == Route(entries, required).value;
      } else {
        hide OffersAll;
        var rest := entries[1..];
        RouteFinds(rest, required);
        assert entries == [entries[0]] + rest;
        match Route(rest, required)
        case Some(e) =>
          var k :| 0 <= k < |rest| && rest[k] == e && OffersAll(e.info, required)
            && forall j :: 0 <= j < k ==> !OffersAll(rest[j].info, required);
          assert entries[k + 1] == e;
          assert forall j :: 0 <= j < k + 1 ==> !OffersAll(entries[j].info, required) by {
            forall j | 0 <= j < k + 1 ensures !OffersAll(entries[j].info, required) {
              if j > 0 {
                assert entries[j] == rest[j - 1];
              }
            }
          }
        case None =>
      }
    }
  }

  /** Position `k` is the first of the worker, and the only one that an update changes. */
  ghost predicate ReplacedAt(entries: seq<Entry>, room: string, info: Info, k: nat) {
    && k < |entries| && entries[k].info.workerId == info.workerId
    && (forall j :: 0 <= j < k ==> entries[j].info.workerId != info.workerId)
    && Registered(entries, room, info) == entries[k := Entry(room, info)]
  }

  /** An update replaces the worker's first entry where it stands, or adds one at the end. */
  lemma {:induction false} RegisteredInPlace(entries: seq<Entry>, room: string, info: Info)
    ensures !Knows(entries, info.workerId) ==> Registered(entries, room, info) == entries + [Entry(room, info)]
    ensures Knows(entries, info.workerId) ==> exists k :: ReplacedAt(entries, room, info, k)
  {
    if entries == [] {
    } else if entries[0].info.workerId == info.workerId {
      assert ReplacedAt(entries, room, info, 0);
    } else {
      var rest := entries[1..];
      RegisteredInPlace(rest, room, info);
      assert entries == [entries[0]] + rest;
      if Knows(rest, info.workerId) {
        var k: nat :| ReplacedAt(rest, room, info, k);
        assert entries[k + 1] == rest[k];
        assert forall j :: 0 < j < k + 1 ==> entries[j] == rest[j - 1];
        assert ReplacedAt(entries, room, info, k + 1);
      } else {
        assert !Knows(entries, info.workerId) by {
          forall j | 0 <= j < |entries| ensures entries[j].info.workerId != info.workerId {
            if j > 0 {
              assert entries[j] == rest[j - 1];
            }
          }
        }
      }
    }
  }

  /** A removal keeps exactly the other workers' entries, in order. */
  lemma {:induction false} UnregisteredPicks(entries: seq<Entry>, id: string) returns (ks: seq<nat>)
    ensures Picks(Unregistered(entries, id), entries, ks)
    ensures forall k: nat :: k in ks <==> k < |entries| && entries[k].info.workerId != id
  {
    ks := [];
    if entries != [] {
      var n := |entries| - 1;
      var init := entries[..n];
      ks := UnregisteredPicks(init, id);
      UnregisteredSnoc(init, entries[n], id);
      hide Unregistered;
      assert init + [entries[n]] == entries;
      if entries[n].info.workerId != id {
        PicksSnoc(Unregistered(init, id), init, ks, entries[n]);
        ks := ks + [n];
      } else {
        PicksMore(Unregistered(init, id), init, ks, entries[n]);
      }
    }
  }

  lemma {:induction false} UnregisteredSnoc(entries: seq<Entry>, e: Entry, id: string)
    ensures Unregistered(entries + [e], id)
         == if e.info.workerId == id then Unregistered(entries, id) else Unregistered(entries, id) + [e]
  {
    var all := entries + [e];
    if entries == [] {
      assert all[1..] == [];
    } else {
      assert all[1..] == entries[1..] + [e];
      UnregisteredSnoc(entries[1..], e, id);
    }
  }

  /**
   * Given the same history, the router's scan picks a worker that the index answers with, and
   * finds none exactly when the index answers with none.
   */
  lemma RouteAgreesWithIndex(history: seq<Action>, required: seq<string>, ids: seq<string>)
    requires AnswersAll(IndexAfter(history), required, ids)
    ensures match Route(RouterAfter(history), required)
      case Some(e) => e.info.workerId in ids && IndexAfter(history).workers[e.info.workerId] == e.info
      case None => ids == []
  {
    hide IndexAfter, RouterAfter, Route, OffersAll;
    HistoryInv(history);
    var index, entries := IndexAfter(history), RouterAfter(history);
    RouteFinds(entries, required);
    if ids != [] {
      var id := ids[0];
      assert id in ids && id in index.workers && Knows(entries, id);
      var k :| 0 <= k < |entries| && entries[k].info.workerId == id;
      assert entries[k] in entries;
    }
  }

  // ---------------------------------------------------------------------------
  // The imperative index and router
  // ---------------------------------------------------------------------------

  class CapabilityIndex {
    var byCapability: Lists
    var workers: map<string, Info>

    function Model(): Index
      reads this
    {
      Index(byCapability, workers)
    }

    constructor ()
      ensures Model() == EMPTY
    {
      byCapability, workers := map[], map[];
    }

    method Remove(id: string)
      modifies this
      ensures Model() == Removed(old(Model()), id)
    {
      workers := workers - {id};
      var lists := map c | c in byCapability :: Without(byCapability[c], id);
      byCapability := map c | c in lists && lists[c] != [] :: lists[c];
    }

    method Push(name: string, id: string)
      modifies this`byCapability
      ensures byCapability == Pushed(old(byCapability), name, id)
    {
      var list := if name in byCapability then byCapability[name] else [];
      byCapability := byCapability[name := list + [id]];
    }

    method Update(info: Info)
      modifies this
      ensures Model() == Updated(old(Model()), info)
    {
      var id := info.workerId;
      Remove(id);
      ghost var start := byCapability;
      for k := 0 to |info.capabilities|
        invariant byCapability == PushedAll(start, info.capabilities[..k], id)
        invariant workers == old(workers) - {id}
      {
        assert info.capabilities[..k + 1][..k] == info.capabilities[..k];
        Push(info.capabilities[k], id);
      }
      assert info.capabilities[..|info.capabilities|] == info.capabilities;
      ghost var mid := byCapability;
      for k := 0 to |info.tools|
        invariant byCapability == PushedAll(mid, HealthyNames(info.tools[..k]), id)
        invariant workers == old(workers) - {id}
      {
        assert info.tools[..k + 1][..k] == info.tools[..k];
        if info.tools[k].healthy {
          ghost var names := HealthyNames(info.tools[..k]);
          assert (names + [info.tools[k].name])[..|names|] == names;
          Push(info.tools[k].name, id);
        }
      }
      assert info.tools[..|info.tools|] == info.tools;
      workers := workers[id := info];
    }
  }

  class Router {
    var workers: seq<Entry>

    constructor ()
      ensures workers == []
    {
      workers := [];
    }

    method UpdateWorker(room: string, info: Info)
      modifies this
      ensures workers == Registered(old(workers), room, info)
    {
      var k := 0;
      while k < |workers| && workers[k].info.workerId != info.workerId
        invariant k <= |workers| && workers == old(workers)
        invariant workers[..k] + Registered(workers[k..], room, info) == Registered(workers, room, info)
      {
        assert workers[k..][1..] == workers[k + 1..] && workers[..k + 1] == workers[..k] + [workers[k]];
        k := k + 1;
      }
      if k < |workers| {
        assert workers[k..][1..] == workers[k + 1..];
        workers := workers[k := Entry(room, info)];
        assert workers == old(workers)[..k] + [Entry(room, info)] + old(workers)[k + 1..];
      } else {
        assert workers[k..] == [] && workers[..k] == workers;
        workers := workers + [Entry(room, info)];
      }
    }

    method RemoveWorker(id: string)
      modifies this
      ensures workers == Unregistered(old(workers), id)
    {
      var kept: seq<Entry> := [];
      for k := 0 to |workers|
        invariant workers == old(workers)
        invariant kept + Unregistered(workers[k..], id) == Unregistered(workers, id)
      {
        assert workers[k..][1..] == workers[k + 1..];
        if workers[k].info.workerId != id {
          kept := kept + [workers[k]];
        }
      }
      workers := kept;
    }
  }
}

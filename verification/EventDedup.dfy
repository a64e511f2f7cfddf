/**
 * Bounded event deduplication (`is_duplicate` of crates/mxdx-matrix/src/multi_hs.rs; the
 * insertion-ordered Map of packages/core/multi-hs-client.js behaves the same) against an
 * unbounded set of everything seen.
 */
module EventDedup {
  import opened Common

  const MAX_SEEN: nat := 10_000
  const EVICT_BATCH: nat := 2_000

  /** The remembered ids after looking at `id`, oldest first. */
  function Remember(order: seq<string>, id: string): seq<string> {
    if id in order then order
    else if |order| + 1 > MAX_SEEN then (order + [id])[EVICT_BATCH..]
    else order + [id]
  }

  /** Remembered ids, all ids ever taken as fresh, and the answers given, oldest first. */
  datatype World = World(order: seq<string>, added: seq<string>, answers: seq<bool>)

  const START := World([], [], [])

  function Step(w: World, id: string): World {
    World(Remember(w.order, id),
          if id in w.order then w.added else w.added + [id],
          w.answers + [id in w.order])
  }

  function Exec(ids: seq<string>): (w: World)
    ensures |w.answers| == |ids|
  {
    if ids == [] then START else Step(Exec(ids[..|ids| - 1]), ids[|ids| - 1])
  }

  ghost predicate NoRepeats(s: seq<string>) {
    forall i, j :: 0 <= i < j < |s| ==> s[i] != s[j]
  }

  /** How many of `n` fresh ids are still remembered. */
  function Retained(n: nat): (r: nat)
    ensures r <= n && r <= MAX_SEEN
    ensures n <= 8001 ==> r == n
    ensures n >= 8001 ==> r >= 8001
  {
    if n <= MAX_SEEN then n else 8001 + (n - 10_001) % EVICT_BATCH
  }

  lemma RetainedStep(n: nat)
    ensures Retained(n + 1) == if Retained(n) + 1 > MAX_SEEN then Retained(n) + 1 - EVICT_BATCH else Retained(n) + 1
  {
    if n > MAX_SEEN {
      var q, r := (n - 10_001) / EVICT_BATCH, (n - 10_001) % EVICT_BATCH;
      if r + 1 < EVICT_BATCH {
        DivModIs(n - 10_000, EVICT_BATCH, q, r + 1);
      } else {
        DivModIs(n - 10_000, EVICT_BATCH, q + 1, 0);
      }
    }
  }

  ghost predicate Inv(w: World) {
    && NoRepeats(w.order)
    && |w.order| == Retained(|w.added|)
    && w.order == w.added[|w.added| - |w.order|..]
  }

  lemma StepInv(w: World, id: string)
    requires Inv(w)
    ensures Inv(Step(w, id))
  {
    hide Retained;
    if id !in w.order {
      RetainedStep(|w.added|);
      var grown := w.order + [id];
      assert NoRepeats(grown);
      var w' := Step(w, id);
      assert w'.added[|w.added| - |w.order|..] == grown;
    }
  }

  lemma {:induction false} ExecInv(ids: seq<string>)
    ensures Inv(Exec(ids))
    ensures forall id :: id in Exec(ids).added <==> id in ids
  {
    if ids != [] {
      var init, last := ids[..|ids| - 1], ids[|ids| - 1];
      ExecInv(init);
      StepInv(Exec(init), last);
      assert ids == init + [last];
      var w := Exec(init);
      assert last in w.order ==> last in w.added;
    }
  }

  /**
   * Every run: the remembered ids have no repeats, number at most 10,000, and are exactly the
   * last `Retained(n)` of the `n` ids ever taken as fresh. The answer for an id is therefore
   * "duplicate" if and only if it is among those.
   */
  lemma ExactMemory(ids: seq<string>, id: string)
    ensures var w := Exec(ids); var n := |w.added|;
      && NoRepeats(w.order) && |w.order| <= MAX_SEEN
      && (n >= 8001 ==> |w.order| >= 8001)
      && w.order == w.added[n - Retained(n)..]
      && (Exec(ids + [id]).answers[|ids|] <==> id in w.added[n - Retained(n)..])
  {
    ExecInv(ids);
    ExecSnoc(ids, id);
  }

  lemma ExecSnoc(ids: seq<string>, id: string)
    ensures Exec(ids + [id]) == Step(Exec(ids), id)
  {
    assert (ids + [id])[..|ids|] == ids;
  }

  /** No event is ever dropped by mistake: an id called a duplicate did occur before. */
  lemma {:induction false} NoFalseDuplicate(ids: seq<string>, j: nat)
    requires j < |ids| && Exec(ids).answers[j]
    ensures ids[j] in ids[..j]
  {
    var n := |ids| - 1;
    var init, w := ids[..n], Exec(ids[..n]);
    assert Exec(ids) == Step(w, ids[n]);
    if j < n {
      assert Exec(ids).answers[j] == w.answers[j];
      NoFalseDuplicate(init, j);
      assert init[..j] == ids[..j];
    } else if ids[n] !in init {
      NewIsNotRemembered(init, ids[n]);
    }
  }

  // ---------------------------------------------------------------------------
  // Agreement with an unbounded set
  // ---------------------------------------------------------------------------

  /** The first occurrences in `ids`: what an unbounded seen-set takes as fresh. */
  function Firsts(ids: seq<string>): seq<string> {
    if ids == [] then []
    else
      var init, last := ids[..|ids| - 1], ids[|ids| - 1];
      Firsts(init) + if last in init then [] else [last]
  }

  /** The answers of an unbounded seen-set. */
  function Unbounded(ids: seq<string>): seq<bool> {
    if ids == [] then [] else Unbounded(ids[..|ids| - 1]) + [ids[|ids| - 1] in ids[..|ids| - 1]]
  }

  /** New ids that appear strictly between positions `i` and `j`. */
  function Between(ids: seq<string>, i: nat, j: nat): int
    requires i < j <= |ids|
  {
    |Firsts(ids[..j])| - |Firsts(ids[..i + 1])|
  }

  /** Equal ids are never separated by more than `limit` new ones. */
  ghost predicate Close(ids: seq<string>, limit: nat) {
    forall i, j :: 0 <= i < j < |ids| && ids[i] == ids[j] ==> Between(ids, i, j) <= limit
  }

  lemma {:induction false} FirstsPrefix(ids: seq<string>, k: nat)
    requires k <= |ids|
    ensures Firsts(ids[..k]) <= Firsts(ids)
  {
    if k < |ids| {
      var init := ids[..|ids| - 1];
      FirstsPrefix(init, k);
      assert init[..k] == ids[..k];
    } else {
      assert ids[..k] == ids;
    }
  }

  /** Where an id first occurs, the list of first occurrences grows by that id. */
  lemma {:induction false} FirstIndex(ids: seq<string>, id: string) returns (i: nat)
    requires id in ids
    ensures i < |ids| && ids[i] == id && id !in ids[..i]
    ensures Firsts(ids[..i + 1]) == Firsts(ids[..i]) + [id]
  {
    var init, last := ids[..|ids| - 1], ids[|ids| - 1];
    if id in init {
      i := FirstIndex(init, id);
      assert init[..i] == ids[..i] && init[..i + 1] == ids[..i + 1];
    } else {
      i := |ids| - 1;
      assert ids[..i + 1] == ids && ids == init + [last];
    }
  }

  lemma ClosePrefix(ids: seq<string>, limit: nat)
    requires ids != [] && Close(ids, limit)
    ensures Close(ids[..|ids| - 1], limit)
  {
    var init := ids[..|ids| - 1];
    forall i, j | 0 <= i < j < |init| && init[i] == init[j] ensures Between(init, i, j) <= limit {
      assert init[..j] == ids[..j] && init[..i + 1] == ids[..i + 1];
      assert ids[i] == ids[j] && Between(ids, i, j) <= limit;
    }
  }

  /** An id that occurred, with at most 8,000 new ids since, is still remembered. */
  lemma StillRemembered(ids: seq<string>, id: string)
    requires Exec(ids).added == Firsts(ids) && id in ids
    requires forall i :: 0 <= i < |ids| && ids[i] == id ==> |Firsts(ids)| - |Firsts(ids[..i + 1])| <= 8000
    ensures id in Exec(ids).order
  {
    var w := Exec(ids);
    ExecInv(ids);
    var i := FirstIndex(ids, id);
    FirstsPrefix(ids, i + 1);
    var k := |Firsts(ids[..i])|;
    assert w.added[k] == Firsts(ids[..i + 1])[k] == id;
    var drop := |w.added| - |w.order|;
    assert k >= drop;
    assert w.order[k - drop] == id;
  }

  lemma {:induction false} AgreesAndFresh(ids: seq<string>)
    requires Close(ids, 8000)
    ensures Exec(ids).answers == Unbounded(ids)
    ensures Exec(ids).added == Firsts(ids)
  {
    if ids != [] {
      var init, last := ids[..|ids| - 1], ids[|ids| - 1];
      ClosePrefix(ids, 8000);
      AgreesAndFresh(init);
      var w := Exec(init);
      ExecInv(init);
      if last in init {
        forall i | 0 <= i < |init| && init[i] == last
          ensures |Firsts(init)| - |Firsts(init[..i + 1])| <= 8000
        {
          assert ids[i] == ids[|init|] && Between(ids, i, |init|) <= 8000;
          assert ids[..|init|] == init && ids[..i + 1] == init[..i + 1];
        }
        StillRemembered(init, last);
      } else {
        assert forall x :: x in w.order ==> x in w.added;
      }
    }
  }

  /**
   * Refinement: on any stream in which equal ids are separated by at most 8,000 new ids, the
   * bounded memory gives exactly the answers of an unbounded one.
   */
  lemma AgreesWithUnbounded(ids: seq<string>)
    requires Close(ids, 8000)
    ensures Exec(ids).answers == Unbounded(ids)
  {
    AgreesAndFresh(ids);
  }

  // ---------------------------------------------------------------------------
  // 8,000 is exact
  // ---------------------------------------------------------------------------

  lemma {:induction false} AllFirst(ids: seq<string>)
    requires NoRepeats(ids)
    ensures Firsts(ids) == ids
  {
    if ids != [] {
      var init, last := ids[..|ids| - 1], ids[|ids| - 1];
      AllFirst(init);
      assert ids == init + [last];
    }
  }

  lemma {:induction false} AllNew(ids: seq<string>)
    requires NoRepeats(ids)
    ensures Exec(ids).added == ids
  {
    if ids != [] {
      var init, last := ids[..|ids| - 1], ids[|ids| - 1];
      AllNew(init);
      NewIsNotRemembered(init, last);
      assert ids == init + [last];
      ExecSnoc(init, last);
    }
  }

  lemma NewIsNotRemembered(ids: seq<string>, id: string)
    requires id !in ids
    ensures id !in Exec(ids).order
  {
    hide Exec;
    ExecInv(ids);
    assert forall x :: x in Exec(ids).order ==> x in Exec(ids).added;
  }

  /** After 10,001 different ids the first 2,000 are forgotten, the last of them 8,001 ids ago. */
  lemma ForgetsAfter8001(ids: seq<string>)
    requires NoRepeats(ids) && |ids| == 10_001
    ensures var again := ids + [ids[1999]];
      Close(again, 8001) && Exec(again).answers != Unbounded(again)
  {
    hide Exec, Firsts;
    var id := ids[1999];
    var again := ids + [id];
    AllNew(ids);
    ExecInv(ids);
    ExecSnoc(ids, id);
    assert Retained(10_001) == 8001;
    assert again[..10_001] == ids && again[10_001] == id;
    assert Exec(again).answers[10_001] == (id in Exec(ids).order) by {
      ExactMemory(ids, id);
    }
    forall k | 0 <= k < 8001 ensures Exec(ids).order[k] != id {
      assert Exec(ids).order[k] == ids[2000 + k];
    }
    assert Unbounded(again)[10_001] by { UnboundedLast(ids, id); }
    forall i, j | 0 <= i < j < |again| && again[i] == again[j] ensures Between(again, i, j) <= 8001 {
      assert i == 1999 && j == 10_001;
      assert again[..2000] == ids[..2000] && NoRepeats(ids[..2000]);
      AllFirst(ids[..2000]);
      AllFirst(ids);
    }
  }

  lemma UnboundedLast(ids: seq<string>, id: string)
    requires id in ids
    ensures |Unbounded(ids + [id])| == |ids| + 1 && Unbounded(ids + [id])[|ids|]
  {
    assert (ids + [id])[..|ids|] == ids;
    UnboundedLength(ids);
  }

  lemma {:induction false} UnboundedLength(ids: seq<string>)
    ensures |Unbounded(ids)| == |ids|
  {
    if ids != [] {
      UnboundedLength(ids[..|ids| - 1]);
    }
  }

  /**
   * The exact limit: the bounded memory agrees with the unbounded one on every stream with
   * separations up to `limit` if and only if `limit` is at most 8,000.
   */
  lemma AgreesExactlyUpTo8000(limit: nat)
    ensures (forall ids :: Close(ids, limit) ==> Exec(ids).answers == Unbounded(ids)) <==> limit <= 8000
  {
    hide Exec, Unbounded, Firsts;
    if limit <= 8000 {
      forall ids | Close(ids, limit) ensures Exec(ids).answers == Unbounded(ids) {
        assert Close(ids, 8000);
        AgreesWithUnbounded(ids);
      }
    } else {
      var ids := seq(10_001, (k: nat) => seq(k, _ => 'x'));
      forall i, j | 0 <= i < j < |ids| ensures ids[i] != ids[j] {
        assert |ids[i]| == i && |ids[j]| == j;
      }
      ForgetsAfter8001(ids);
      var again := ids + [ids[1999]];
      assert Close(again, limit);
    }
  }

  // ---------------------------------------------------------------------------
  // The imperative memory
  // ---------------------------------------------------------------------------

  function Ids(order: seq<string>): set<string> {
    set id | id in order
  }

  lemma {:induction false} AsManyIds(order: seq<string>)
    requires NoRepeats(order)
    ensures |Ids(order)| == |order|
  {
    if order != [] {
      var init, last := order[..|order| - 1], order[|order| - 1];
      AsManyIds(init);
      assert Ids(order) == Ids(init) + {last};
      assert last !in init;
    }
  }

  class Memory {
    const singleServer: bool
    var seenEvents: map<string, int>
    var seenOrder: seq<string>

    /** The map and the order list hold the same ids, each once. */
    ghost predicate Valid()
      reads this
    {
      NoRepeats(seenOrder) && seenEvents.Keys == Ids(seenOrder)
    }

    constructor (singleServer: bool)
      ensures Valid() && seenOrder == [] && this.singleServer == singleServer
    {
      this.singleServer := singleServer;
      seenEvents, seenOrder := map[], [];
    }

    method IsDuplicate(id: string, now: int) returns (duplicate: bool)
      requires Valid()
      modifies this
      ensures Valid()
      ensures singleServer ==> !duplicate && seenOrder == old(seenOrder)
      ensures !singleServer ==> duplicate == (id in old(seenOrder)) && seenOrder == Remember(old(seenOrder), id)
    {
      if singleServer { return false; }
      if id in seenEvents { return true; }
      seenEvents := seenEvents[id := now];
      seenOrder := seenOrder + [id];
      AsManyIds(seenOrder);
      assert seenEvents.Keys == Ids(seenOrder);
      if |seenEvents| > MAX_SEEN {
        Evict();
      }
      return false;
    }

    /** Drains the oldest batch from the list and removes its ids from the map. */
    method Evict()
      requires Valid() && |seenOrder| >= EVICT_BATCH
      modifies this
      ensures Valid() && seenOrder == old(seenOrder[EVICT_BATCH..])
    {
      var toEvict := seenOrder[..EVICT_BATCH];
      ghost var all := seenOrder;
      seenOrder := seenOrder[EVICT_BATCH..];
      for k := 0 to |toEvict|
        invariant seenOrder == all[EVICT_BATCH..]
        invariant seenEvents.Keys == Ids(all[k..])
      {
        DropOne(all, k);
        seenEvents := seenEvents - {toEvict[k]};
      }
    }
  }

  lemma DropOne(all: seq<string>, k: nat)
    requires NoRepeats(all) && k < |all|
    ensures Ids(all[k..]) - {all[k]} == Ids(all[k + 1..])
  {
    assert all[k..] == [all[k]] + all[k + 1..];
    assert all[k] !in all[k + 1..];
  }
}

/**
 * The merge of cached (SDK) and fetched (REST) state entries in `read_state_events`
 * (crates/mxdx-client/src/matrix.rs), which keeps the later timestamp, compared as a string.
 */
module StateMerge {
  import opened Common
  import opened Timestamp
  import opened TimestampOrder
  import opened StampFormats

  /** A state event: its `timestamp` field (empty if absent) and the rest of its content. */
  datatype Entry = Entry(timestamp: string, content: string)

  type Keyed = (string, Entry)

  /** The last entry stored under `key`. */
  function Last(entries: seq<Keyed>, key: string): Option<Entry> {
    if entries == [] then None
    else
      var (k, e) := entries[|entries| - 1];
      if k == key then Some(e) else Last(entries[..|entries| - 1], key)
  }

  /** Not later, as strings. */
  predicate AtMost(a: string, b: string) {
    !Less(b, a)
  }

  lemma AtMostLess(a: string, b: string, c: string)
    requires AtMost(a, b) && Less(b, c)
    ensures Less(a, c)
  {
    LessTotal(a, b);
    if a != b {
      LessTransitive(a, b, c);
    }
  }

  /**
   * `merged` answers the merge of the two lists for one key: it is the last cached entry unless
   * some fetched one is strictly later, and no fetched entry is later than it.
   */
  ghost predicate MergedAt(sdk: seq<Keyed>, rest: seq<Keyed>, merged: map<string, Entry>, key: string) {
    && (key in merged <==> Last(sdk, key).Some? || exists e: Entry :: (key, e) in rest)
    && (key in merged ==>
          && (forall e: Entry :: (key, e) in rest ==> AtMost(e.timestamp, merged[key].timestamp))
          && (Last(sdk, key) == Some(merged[key]) ||
              ((key, merged[key]) in rest &&
               (Last(sdk, key).Some? ==> Less(Last(sdk, key).value.timestamp, merged[key].timestamp)))))
  }

  lemma MergedStep(sdk: seq<Keyed>, rest: seq<Keyed>, merged: map<string, Entry>, k: string, e: Entry, key: string)
    requires MergedAt(sdk, rest, merged, key)
    ensures var replace := k !in merged || Less(merged[k].timestamp, e.timestamp);
      MergedAt(sdk, rest + [(k, e)], if replace then merged[k := e] else merged, key)
  {
    hide Less, Last;
    var rest' := rest + [(k, e)];
    assert forall e': Entry :: (key, e') in rest' <==> (key, e') in rest || (key == k && e' == e);
    assert key == k ==> (key, e) in rest';
    if key == k && k in merged && Less(merged[k].timestamp, e.timestamp) {
      forall e': Entry | (k, e') in rest' ensures AtMost(e'.timestamp, e.timestamp) {
        if e' != e {
          AtMostLess(e'.timestamp, merged[k].timestamp, e.timestamp);
          LessAsymmetric(e'.timestamp, e.timestamp);
        } else {
          LessIrreflexive(e.timestamp);
        }
      }
      if Last(sdk, k).Some? && Last(sdk, k).value != merged[k] {
        LessTransitive(Last(sdk, k).value.timestamp, merged[k].timestamp, e.timestamp);
      }
    } else if key == k && k !in merged {
      LessIrreflexive(e.timestamp);
    }
  }

  lemma LessAsymmetric(a: string, b: string)
    requires Less(a, b)
    ensures !Less(b, a)
  {
    if Less(b, a) {
      LessTransitive(a, b, a);
      LessIrreflexive(a);
    }
  }

  /** The two loops of the merge. */
  method Merge(sdk: seq<Keyed>, rest: seq<Keyed>) returns (merged: map<string, Entry>)
    ensures forall key :: MergedAt(sdk, rest, merged, key)
  {
    merged := map[];
    for i := 0 to |sdk|
      invariant forall key :: Last(sdk[..i], key) == if key in merged then Some(merged[key]) else None
    {
      var (key, val) := sdk[i];
      assert sdk[..i + 1][..i] == sdk[..i];
      merged := merged[key := val];
    }
    assert sdk[..|sdk|] == sdk;
    for i := 0 to |rest|
      invariant forall key :: MergedAt(sdk, rest[..i], merged, key)
    {
      var (key, val) := rest[i];
      var shouldReplace := key !in merged || Less(merged[key].timestamp, val.timestamp);
      ghost var before := merged;
      if shouldReplace {
        merged := merged[key := val];
      }
      assert rest[..i + 1] == rest[..i] + [(key, val)];
      ghost var done := rest[..i + 1];
      forall k ensures MergedAt(sdk, done, merged, k) {
        MergedStep(sdk, rest[..i], before, key, val, k);
      }
    }
    assert rest[..|rest|] == rest;
  }

  ghost predicate UniqueKeys(entries: seq<Keyed>) {
    forall i, j :: 0 <= i < j < |entries| ==> entries[i].0 != entries[j].0
  }

  lemma {:induction false} LastOfUnique(entries: seq<Keyed>, key: string, e: Entry)
    requires UniqueKeys(entries) && (key, e) in entries
    ensures Last(entries, key) == Some(e)
  {
    var n := |entries| - 1;
    var i :| 0 <= i < |entries| && entries[i] == (key, e);
    if i < n {
      assert entries[..n][i] == (key, e);
      LastOfUnique(entries[..n], key, e);
      assert entries[n].0 != key;
    }
  }

  // ---------------------------------------------------------------------------
  // Instants
  // ---------------------------------------------------------------------------

  ghost predicate IsStamp(text: string) {
    exists st :: UpTo9999(st) && TextOf(st) == text
  }

  ghost function StampOf(text: string): (st: Stamp)
    requires IsStamp(text)
    ensures UpTo9999(st) && TextOf(st) == text
  {
    var st :| UpTo9999(st) && TextOf(st) == text;
    st
  }

  /** Every timestamp is absent, in milliseconds or in whole seconds, up to the year 9999. */
  ghost predicate Stamped(entries: seq<Keyed>) {
    forall x :: x in entries ==> IsStamp(x.1.timestamp)
  }

  /** The entries that compete for a key: the last cached one and all fetched ones. */
  ghost predicate Offered(sdk: seq<Keyed>, rest: seq<Keyed>, key: string, e: Entry) {
    Last(sdk, key) == Some(e) || (key, e) in rest
  }

  /** With one cached entry per key, those are all entries of the key. */
  lemma AllAreOffered(sdk: seq<Keyed>, rest: seq<Keyed>, key: string, e: Entry)
    requires UniqueKeys(sdk)
    ensures Offered(sdk, rest, key, e) <==> (key, e) in sdk || (key, e) in rest
  {
    LastIsMember(sdk, key);
    if (key, e) in sdk {
      LastOfUnique(sdk, key, e);
    }
  }

  lemma OfferedIsStamped(sdk: seq<Keyed>, rest: seq<Keyed>, key: string, e: Entry)
    requires Stamped(sdk) && Stamped(rest) && Offered(sdk, rest, key, e)
    ensures IsStamp(e.timestamp)
  {
    hide IsStamp;
    LastIsMember(sdk, key);
    assert IsStamp((key, e).1.timestamp);
  }

  ghost function OfferedStamp(sdk: seq<Keyed>, rest: seq<Keyed>, key: string, e: Entry): Stamp
    requires Stamped(sdk) && Stamped(rest) && Offered(sdk, rest, key, e)
  {
    OfferedIsStamped(sdk, rest, key, e);
    StampOf(e.timestamp)
  }

  /** The entry kept is one of those offered, and none sorts after it. */
  lemma KeepsGreatestRank(sdk: seq<Keyed>, rest: seq<Keyed>, merged: map<string, Entry>, key: string)
    requires MergedAt(sdk, rest, merged, key) && key in merged && Stamped(sdk) && Stamped(rest)
    ensures Offered(sdk, rest, key, merged[key])
    ensures forall e :: Offered(sdk, rest, key, e) ==>
      Rank(OfferedStamp(sdk, rest, key, e)) <= Rank(OfferedStamp(sdk, rest, key, merged[key]))
  {
    hide TextOf, Less, Rank, Last, IsStamp, UpTo9999;
    var m := merged[key];
    forall e | Offered(sdk, rest, key, e)
      ensures Rank(OfferedStamp(sdk, rest, key, e)) <= Rank(OfferedStamp(sdk, rest, key, m))
    {
      assert AtMost(e.timestamp, m.timestamp) by {
        if e == m {
          LessIrreflexive(e.timestamp);
        } else if Last(sdk, key) == Some(e) {
          LessAsymmetric(e.timestamp, m.timestamp);
        }
      }
      StampOrder(OfferedStamp(sdk, rest, key, m), OfferedStamp(sdk, rest, key, e));
    }
  }

  /** Ranks order the whole seconds, and within a second put the format without a fraction last. */
  lemma RankParts(a: Stamp, b: Stamp)
    requires Rank(a) <= Rank(b)
    ensures SecondOf(a) <= SecondOf(b)
    ensures InstantOf(a) > InstantOf(b) <==>
      a.Millis? && b.Seconds? && SecondOf(a) == SecondOf(b) && a.ms % 1000 > 0
    ensures SecondOf(a) == SecondOf(b) && a.Seconds? ==> b == a
  {
  }

  /** Whatever the formats, the entry kept has the greatest whole second of those offered. */
  lemma KeepsGreatestSecond(sdk: seq<Keyed>, rest: seq<Keyed>, merged: map<string, Entry>, key: string)
    requires MergedAt(sdk, rest, merged, key) && key in merged && Stamped(sdk) && Stamped(rest)
    ensures Offered(sdk, rest, key, merged[key])
    ensures forall e :: Offered(sdk, rest, key, e) ==>
      SecondOf(OfferedStamp(sdk, rest, key, e)) <= SecondOf(OfferedStamp(sdk, rest, key, merged[key]))
  {
    KeepsGreatestRank(sdk, rest, merged, key);
    hide Offered, OfferedStamp, Stamped, MergedAt, Rank, SecondOf;
    forall e | Offered(sdk, rest, key, e)
      ensures SecondOf(OfferedStamp(sdk, rest, key, e)) <= SecondOf(OfferedStamp(sdk, rest, key, merged[key]))
    {
      RankParts(OfferedStamp(sdk, rest, key, e), OfferedStamp(sdk, rest, key, merged[key]));
    }
  }

  /** A whole second hides a later millisecond of its own: the greatest second offered has both. */
  ghost predicate Masked(sdk: seq<Keyed>, rest: seq<Keyed>, key: string)
    requires Stamped(sdk) && Stamped(rest)
  {
    exists e, f :: Offered(sdk, rest, key, e) && Offered(sdk, rest, key, f)
      && Hides(OfferedStamp(sdk, rest, key, e), OfferedStamp(sdk, rest, key, f))
      && forall g :: Offered(sdk, rest, key, g) ==>
           SecondOf(OfferedStamp(sdk, rest, key, g)) <= SecondOf(OfferedStamp(sdk, rest, key, e))
  }

  predicate Hides(e: Stamp, f: Stamp) {
    e.Seconds? && f.Millis? && f.ms / 1000 == e.s && f.ms % 1000 > 0
  }

  ghost predicate IsGreatest(sdk: seq<Keyed>, rest: seq<Keyed>, key: string, m: Entry)
    requires Stamped(sdk) && Stamped(rest) && Offered(sdk, rest, key, m)
  {
    forall e :: Offered(sdk, rest, key, e) ==>
      InstantOf(OfferedStamp(sdk, rest, key, e)) <= InstantOf(OfferedStamp(sdk, rest, key, m))
  }

  /**
   * The exact condition, over every mix of the formats up to the year 9999: the entry kept has the
   * greatest instant of those offered if and only if no whole second hides a later millisecond.
   */
  lemma KeepsGreatestInstant(sdk: seq<Keyed>, rest: seq<Keyed>, merged: map<string, Entry>, key: string)
    requires MergedAt(sdk, rest, merged, key) && key in merged && Stamped(sdk) && Stamped(rest)
    ensures Offered(sdk, rest, key, merged[key])
    ensures IsGreatest(sdk, rest, key, merged[key]) <==> !Masked(sdk, rest, key)
  {
    KeepsGreatestRank(sdk, rest, merged, key);
    KeepsGreatestSecond(sdk, rest, merged, key);
    hide Offered, OfferedStamp, Stamped, MergedAt, Rank, SecondOf, InstantOf;
    var m := merged[key];
    var top := OfferedStamp(sdk, rest, key, m);
    if Masked(sdk, rest, key) {
      var e, f :| Offered(sdk, rest, key, e) && Offered(sdk, rest, key, f)
        && Hides(OfferedStamp(sdk, rest, key, e), OfferedStamp(sdk, rest, key, f))
        && forall g :: Offered(sdk, rest, key, g) ==>
             SecondOf(OfferedStamp(sdk, rest, key, g)) <= SecondOf(OfferedStamp(sdk, rest, key, e));
      RankParts(OfferedStamp(sdk, rest, key, e), top);
      HiddenIsLater(OfferedStamp(sdk, rest, key, e), OfferedStamp(sdk, rest, key, f));
    } else {
      forall e | Offered(sdk, rest, key, e) ensures InstantOf(OfferedStamp(sdk, rest, key, e)) <= InstantOf(top) {
        var st := OfferedStamp(sdk, rest, key, e);
        RankParts(st, top);
        SecondsOf(st, top);
      }
    }
  }

  lemma HiddenIsLater(e: Stamp, f: Stamp)
    requires Hides(e, f)
    ensures InstantOf(e) < InstantOf(f)
  {
  }

  lemma SecondsOf(f: Stamp, e: Stamp)
    ensures f.Millis? && e.Seconds? && SecondOf(f) == SecondOf(e) && f.ms % 1000 > 0 ==> Hides(e, f)
  {
  }

  /** Milliseconds alone never hide one another. */
  lemma MillisAreNotMasked(sdk: seq<Keyed>, rest: seq<Keyed>, key: string)
    requires Stamped(sdk) && Stamped(rest)
    requires forall e :: Offered(sdk, rest, key, e) ==> !OfferedStamp(sdk, rest, key, e).Seconds?
    ensures !Masked(sdk, rest, key)
  {
    hide Offered, OfferedStamp, Stamped;
  }

  /**
   * The failing inputs: a cached entry in whole seconds, as the Rust worker writes them, beats
   * every fetched one of a later millisecond of its second.
   */
  lemma OlderCachedIsKept(key: string, s: nat, cached: string, ms: nat, fetched: string, merged: map<string, Entry>)
    requires ms < YEAR_10000_MS && ms / 1000 == s && ms % 1000 > 0
    requires MergedAt([(key, Entry(PrintSeconds(s), cached))], [(key, Entry(Print(ms), fetched))], merged, key)
    ensures InstantOf(Seconds(s)) < InstantOf(Millis(ms))
    ensures key in merged && merged[key] == Entry(PrintSeconds(s), cached)
  {
    hide Less, Print, PrintSeconds;
    var c, f := Entry(PrintSeconds(s), cached), Entry(Print(ms), fetched);
    assert Last([(key, c)], key) == Some(c);
    assert (key, merged[key]) in [(key, f)] ==> merged[key] == f;
    MixedOrder(ms, s);
  }

  lemma {:induction false} LastIsMember(entries: seq<Keyed>, key: string)
    ensures Last(entries, key).Some? ==> (key, Last(entries, key).value) in entries
  {
    if entries != [] && entries[|entries| - 1].0 != key {
      LastIsMember(entries[..|entries| - 1], key);
    }
  }
}

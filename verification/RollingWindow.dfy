/** Timestamp windows kept incrementally by popping expired entries off the front, and what they have to
    do with the full observation history. Timestamps may go back. */
module RollingWindow {
  import opened Types

  datatype Timed<T> = Timed(timestamp: I64, value: T)

  /** A moment at which the window is brought up to date, with the entry it then takes in, if any. */
  datatype Tick<T> = Tick(timestamp: I64, value: Option<T>)

  predicate Expired<T>(o: Timed<T>, now: I64, windowNs: I64) {
    now - o.timestamp > windowNs
  }

  // ----- the incremental window -----

  /** How many entries the loop pops: the expired ones before the first unexpired one. */
  function Lead<T>(window: seq<Timed<T>>, now: I64, windowNs: I64): (k: nat)
    ensures k <= |window|
    ensures forall i :: 0 <= i < k ==> Expired(window[i], now, windowNs)
    ensures k < |window| ==> !Expired(window[k], now, windowNs)
  {
    if window == [] || !Expired(window[0], now, windowNs) then 0 else 1 + Lead(window[1..], now, windowNs)
  }

  function EntryOf<T>(tick: Tick<T>): seq<Timed<T>> {
    if tick.value.Some? then [Timed(tick.timestamp, tick.value.value)] else []
  }

  /** Everything ever taken in. */
  function Entries<T>(ticks: seq<Tick<T>>): seq<Timed<T>> {
    if ticks == [] then [] else Entries(ticks[..|ticks| - 1]) + EntryOf(ticks[|ticks| - 1])
  }

  /** What the window holds after these ticks. */
  function Window<T>(ticks: seq<Tick<T>>, windowNs: I64): seq<Timed<T>> {
    if ticks == [] then []
    else
      var before, tick := Window(ticks[..|ticks| - 1], windowNs), ticks[|ticks| - 1];
      before[Lead(before, tick.timestamp, windowNs)..] + EntryOf(tick)
  }

  /** The ages the loop computes are signed 64-bit differences. */
  predicate Subtractable<T>(window: seq<Timed<T>>, now: I64, windowNs: I64) {
    forall i :: 0 <= i < |window| && i <= Lead(window, now, windowNs) ==>
      -TWO63 <= now - window[i].timestamp < TWO63
  }

  function Age<T>(o: Timed<T>, now: I64): I64
    requires -TWO63 <= now - o.timestamp < TWO63
  {
    now - o.timestamp
  }

  /** Pops expired entries off the front. What stays is all that is recent exactly when no expired entry
      stands behind an unexpired one. */
  method Expire<T>(window: seq<Timed<T>>, now: I64, windowNs: I64) returns (kept: seq<Timed<T>>)
    requires Subtractable(window, now, windowNs)
    ensures kept == window[Lead(window, now, windowNs)..]
    ensures kept == Recent(window, now, windowNs) <==> !Stranded(window, now, windowNs)
  {
    kept := window;
    ghost var k := 0;
    while kept != [] && Age(kept[0], now) > windowNs
      invariant 0 <= k <= Lead(window, now, windowNs) && kept == window[k..]
      decreases |kept|
    {
      kept := kept[1..];
      k := k + 1;
    }
    LeadExactly(window, now, windowNs);
  }

  // ----- the recount -----

  /** The observations no older than the window, in order. */
  function Recent<T>(h: seq<Timed<T>>, now: I64, windowNs: I64): seq<Timed<T>> {
    if h == [] then []
    else
      var last := h[|h| - 1];
      Recent(h[..|h| - 1], now, windowNs) + if Expired(last, now, windowNs) then [] else [last]
  }

  /** An expired entry stands behind an unexpired one. */
  ghost predicate Stranded<T>(h: seq<Timed<T>>, now: I64, windowNs: I64) {
    exists i, j :: 0 <= i < j < |h| && !Expired(h[i], now, windowNs) && Expired(h[j], now, windowNs)
  }

  lemma {:induction false} AllRecent<T>(h: seq<Timed<T>>, now: I64, windowNs: I64)
    requires forall i :: 0 <= i < |h| ==> !Expired(h[i], now, windowNs)
    ensures Recent(h, now, windowNs) == h
  {
    if h != [] {
      AllRecent(h[..|h| - 1], now, windowNs);
      assert h == h[..|h| - 1] + [h[|h| - 1]];
    }
  }

  lemma {:induction false} NoneRecent<T>(h: seq<Timed<T>>, now: I64, windowNs: I64)
    ensures Recent(h, now, windowNs) == [] <==> forall i :: 0 <= i < |h| ==> Expired(h[i], now, windowNs)
  {
    hide Expired;
    if h != [] {
      var init, last := h[..|h| - 1], h[|h| - 1];
      NoneRecent(init, now, windowNs);
      assert forall i :: 0 <= i < |init| ==> h[i] == init[i];
      assert Recent(h, now, windowNs) == [] <==> Recent(init, now, windowNs) == [] && Expired(last, now, windowNs);
    }
  }

  lemma {:induction false} RecentMembers<T>(h: seq<Timed<T>>, now: I64, windowNs: I64)
    ensures forall i :: 0 <= i < |Recent(h, now, windowNs)| ==> !Expired(Recent(h, now, windowNs)[i], now, windowNs)
  {
    if h != [] {
      RecentMembers(h[..|h| - 1], now, windowNs);
    }
  }

  lemma {:induction false} RecentSplit<T>(a: seq<Timed<T>>, b: seq<Timed<T>>, now: I64, windowNs: I64)
    ensures Recent(a + b, now, windowNs) == Recent(a, now, windowNs) + Recent(b, now, windowNs)
  {
    if b == [] {
      assert a + b == a;
      assert Recent(a, now, windowNs) + [] == Recent(a, now, windowNs);
    } else {
      RecentSplit(a, b[..|b| - 1], now, windowNs);
      assert (a + b)[..|a + b| - 1] == a + b[..|b| - 1];
    }
  }

  /** The positions of the entries not older than the window. */
  ghost function RecentPositions<T>(h: seq<Timed<T>>, now: I64, windowNs: I64): (idx: seq<nat>)
    ensures forall k :: 0 <= k < |idx| ==> idx[k] < |h| && now - h[idx[k]].timestamp <= windowNs
    ensures forall k, l :: 0 <= k < l < |idx| ==> idx[k] < idx[l]
    ensures forall i :: 0 <= i < |h| && now - h[i].timestamp <= windowNs ==> i in idx
  {
    if h == [] then []
    else
      var n := |h| - 1;
      assert forall i :: 0 <= i < n ==> h[..n][i] == h[i];
      RecentPositions(h[..n], now, windowNs) + if now - h[n].timestamp <= windowNs then [n] else []
  }

  /** The recent entries are those not older than the window, in their order. */
  lemma {:induction false} RecentExactly<T>(h: seq<Timed<T>>, now: I64, windowNs: I64)
    ensures var idx := RecentPositions(h, now, windowNs);
      && |Recent(h, now, windowNs)| == |idx|
      && forall k :: 0 <= k < |idx| ==> Recent(h, now, windowNs)[k] == h[idx[k]]
  {
    if h != [] {
      RecentExactly(h[..|h| - 1], now, windowNs);
    }
  }

  /** The part from k on is the recent part exactly when everything before k has expired and nothing from
      k on has. */
  lemma SuffixIsRecent<T>(h: seq<Timed<T>>, k: nat, now: I64, windowNs: I64)
    requires k <= |h|
    ensures h[k..] == Recent(h, now, windowNs) <==>
      forall i :: 0 <= i < |h| ==> (Expired(h[i], now, windowNs) <==> i < k)
  {
    hide Recent, Expired;
    var a, b := h[..k], h[k..];
    assert h == a + b;
    RecentSplit(a, b, now, windowNs);
    NoneRecent(a, now, windowNs);
    if h[k..] == Recent(h, now, windowNs) {
      RecentMembers(h, now, windowNs);
      forall i | k <= i < |h| ensures !Expired(h[i], now, windowNs) {
        assert h[i] == b[i - k];
      }
      AllRecent(b, now, windowNs);
      assert Recent(a, now, windowNs) == [];
    } else if forall i :: k <= i < |h| ==> !Expired(h[i], now, windowNs) {
      AllRecent(b, now, windowNs);
    }
  }

  lemma LeadExactly<T>(window: seq<Timed<T>>, now: I64, windowNs: I64)
    ensures window[Lead(window, now, windowNs)..] == Recent(window, now, windowNs) <==> !Stranded(window, now, windowNs)
  {
    hide Recent, Expired, Lead;
    var k := Lead(window, now, windowNs);
    SuffixIsRecent(window, k, now, windowNs);
    if i :| k <= i < |window| && Expired(window[i], now, windowNs) {
      assert k < i;
    }
  }

  // ----- whole runs -----

  function Now<T>(ticks: seq<Tick<T>>): I64
    requires ticks != []
  {
    ticks[|ticks| - 1].timestamp
  }

  /** The number of entries popped so far. */
  ghost function Dropped<T>(ticks: seq<Tick<T>>, windowNs: I64): nat {
    if ticks == [] then 0
    else
      var init := ticks[..|ticks| - 1];
      Dropped(init, windowNs) + Lead(Window(init, windowNs), Now(ticks), windowNs)
  }

  lemma {:induction false} WindowIsSuffix<T>(ticks: seq<Tick<T>>, windowNs: I64)
    ensures Dropped(ticks, windowNs) <= |Entries(ticks)|
    ensures Window(ticks, windowNs) == Entries(ticks)[Dropped(ticks, windowNs)..]
  {
    hide Lead, EntryOf;
    if ticks != [] {
      var init, tick := ticks[..|ticks| - 1], ticks[|ticks| - 1];
      WindowIsSuffix(init, windowNs);
      DropMore(Entries(init), EntryOf(tick), Dropped(init, windowNs),
               Lead(Window(init, windowNs), tick.timestamp, windowNs));
    }
  }

  lemma DropMore<T>(a: seq<T>, b: seq<T>, k: nat, l: nat)
    requires k <= |a| && l <= |a| - k
    ensures a[k..][l..] + b == (a + b)[k + l..]
  {
  }

  /** The window agrees with a recount of the whole history. */
  ghost predicate AgreesAt<T>(ticks: seq<Tick<T>>, windowNs: I64)
    requires ticks != []
  {
    Window(ticks, windowNs) == Recent(Entries(ticks), Now(ticks), windowNs)
  }

  /** No entry had expired before and is unexpired again. */
  ghost predicate NoneRevived<T>(entries: seq<Timed<T>>, before: I64, now: I64, windowNs: I64) {
    forall i :: 0 <= i < |entries| && Expired(entries[i], before, windowNs) ==> Expired(entries[i], now, windowNs)
  }

  /** At the last tick, by timestamps alone: no expired entry behind an unexpired one, none revived since
      the tick before, and a new entry not expired at once. */
  ghost predicate CalmAt<T>(ticks: seq<Tick<T>>, windowNs: I64)
    requires ticks != []
  {
    var init := ticks[..|ticks| - 1];
    && !Stranded(Entries(ticks), Now(ticks), windowNs)
    && (init != [] ==> NoneRevived(Entries(init), Now(init), Now(ticks), windowNs))
    && (ticks[|ticks| - 1].value.Some? ==> windowNs >= 0)
  }

  lemma StepParts<T>(ticks: seq<Tick<T>>, windowNs: I64)
    requires ticks != []
    ensures var init, now := ticks[..|ticks| - 1], Now(ticks);
      var h, h' := Entries(init), Entries(ticks);
      var k, k' := Dropped(init, windowNs), Dropped(ticks, windowNs);
      && h' == h + EntryOf(ticks[|ticks| - 1])
      && k <= k' <= |h|
      && (forall i :: k <= i < k' ==> Expired(h[i], now, windowNs))
      && (k' < |h| ==> !Expired(h[k'], now, windowNs))
      && (init == [] ==> k == 0 && h == [])
  {
    hide Expired, EntryOf, Window, Lead;
    var init := ticks[..|ticks| - 1];
    WindowIsSuffix(init, windowNs);
    var h, k := Entries(init), Dropped(init, windowNs);
    var before := Window(init, windowNs);
    assert before == h[k..];
    var lead := Lead(before, Now(ticks), windowNs);
    forall i | k <= i < k + lead ensures Expired(h[i], Now(ticks), windowNs) {
      assert h[i] == before[i - k];
    }
  }

  lemma NewEntry<T>(tick: Tick<T>, windowNs: I64)
    ensures forall i :: 0 <= i < |EntryOf(tick)| ==>
      (Expired(EntryOf(tick)[i], tick.timestamp, windowNs) <==> windowNs < 0)
    ensures |EntryOf(tick)| == if tick.value.Some? then 1 else 0
  {
  }

  /** While the window has agreed so far, it agrees after the next tick exactly when that tick is calm. */
  lemma AgreesStep<T>(ticks: seq<Tick<T>>, windowNs: I64)
    requires ticks != []
    requires |ticks| > 1 ==> AgreesAt(ticks[..|ticks| - 1], windowNs)
    ensures AgreesAt(ticks, windowNs) <==> CalmAt(ticks, windowNs)
  {
    hide Recent, Expired, Lead, Window, Entries, EntryOf, Dropped;
    var init, tick, now := ticks[..|ticks| - 1], ticks[|ticks| - 1], Now(ticks);
    var h, h' := Entries(init), Entries(ticks);
    var k, k' := Dropped(init, windowNs), Dropped(ticks, windowNs);
    StepParts(ticks, windowNs);
    WindowIsSuffix(init, windowNs);
    WindowIsSuffix(ticks, windowNs);
    NewEntry(tick, windowNs);
    SuffixIsRecent(h', k', now, windowNs);
    if init != [] {
      SuffixIsRecent(h, k, Now(init), windowNs);
    }
    assert forall i :: 0 <= i < |h| ==> h'[i] == h[i];
    assert tick.value.Some? ==> h'[|h|] == EntryOf(tick)[0];
    if CalmAt(ticks, windowNs) {
      forall i | 0 <= i < |h'| ensures Expired(h'[i], now, windowNs) <==> i < k' {
        if i < |h| {
          assert k' < i ==> h'[k'] == h[k'];
        } else {
          assert h'[i] == EntryOf(tick)[i - |h|];
        }
      }
    }
  }

  /** After every observation so far the window agreed with the recount exactly when every tick so far was
      calm. */
  lemma {:induction false} AgreesExactly<T>(ticks: seq<Tick<T>>, windowNs: I64)
    ensures (forall n :: 0 < n <= |ticks| ==> AgreesAt(ticks[..n], windowNs))
       <==> (forall n :: 0 < n <= |ticks| ==> CalmAt(ticks[..n], windowNs))
  {
    hide AgreesAt, CalmAt;
    if ticks != [] {
      var init := ticks[..|ticks| - 1];
      AgreesExactly(init, windowNs);
      assert forall n :: 0 < n < |ticks| ==> init[..n] == ticks[..n];
      assert ticks[..|ticks|] == ticks;
      if forall n :: 0 < n < |ticks| ==> AgreesAt(ticks[..n], windowNs) {
        assert |ticks| > 1 ==> ticks[..|ticks| - 1] == init;
        AgreesStep(ticks, windowNs);
      }
    }
  }

  // ----- timestamps that do not go back -----

  ghost predicate Ordered<T>(ticks: seq<Tick<T>>) {
    forall i, j :: 0 <= i <= j < |ticks| ==> ticks[i].timestamp <= ticks[j].timestamp
  }

  lemma {:induction false} EntriesOrdered<T>(ticks: seq<Tick<T>>)
    requires Ordered(ticks) && ticks != []
    ensures var h := Entries(ticks);
      && (forall i, j :: 0 <= i <= j < |h| ==> h[i].timestamp <= h[j].timestamp)
      && (forall i :: 0 <= i < |h| ==> h[i].timestamp <= Now(ticks))
  {
    var init := ticks[..|ticks| - 1];
    if init != [] {
      EntriesOrdered(init);
      assert Now(init) <= Now(ticks);
    }
    assert Entries(ticks) == Entries(init) + EntryOf(ticks[|ticks| - 1]);
  }

  lemma OrderedIsCalm<T>(ticks: seq<Tick<T>>, windowNs: I64)
    requires Ordered(ticks) && ticks != [] && windowNs >= 0
    ensures CalmAt(ticks, windowNs)
  {
    EntriesOrdered(ticks);
  }

  /** With timestamps that do not go back a window of non-negative length always agrees with the recount. */
  lemma OrderedAgrees<T>(ticks: seq<Tick<T>>, windowNs: I64)
    requires Ordered(ticks) && ticks != [] && windowNs >= 0
    ensures AgreesAt(ticks, windowNs)
  {
    hide AgreesAt, CalmAt;
    AgreesExactly(ticks, windowNs);
    forall n | 0 < n <= |ticks| ensures CalmAt(ticks[..n], windowNs) {
      OrderedIsCalm(ticks[..n], windowNs);
    }
    assert ticks[..|ticks|] == ticks;
  }

  /** The ticks of the last windowNs nanoseconds that brought an entry. */
  ghost function RecentTicks<T>(ticks: seq<Tick<T>>, now: I64, windowNs: I64): set<nat> {
    set i: nat | i < |ticks| && ticks[i].value.Some? && now - ticks[i].timestamp <= windowNs
  }

  lemma TickMore<T>(ticks: seq<Tick<T>>, now: I64, windowNs: I64)
    requires ticks != []
    ensures var n := |ticks| - 1;
      |RecentTicks(ticks, now, windowNs)| == |RecentTicks(ticks[..n], now, windowNs)|
        + if ticks[n].value.Some? && now - ticks[n].timestamp <= windowNs then 1 else 0
  {
    var n := |ticks| - 1;
    var more := if ticks[n].value.Some? && now - ticks[n].timestamp <= windowNs then {n} else {};
    assert RecentTicks(ticks, now, windowNs) == RecentTicks(ticks[..n], now, windowNs) + more;
  }

  lemma {:induction false} RecentCount<T>(ticks: seq<Tick<T>>, now: I64, windowNs: I64)
    ensures |Recent(Entries(ticks), now, windowNs)| == |RecentTicks(ticks, now, windowNs)|
  {
    hide RecentTicks, Recent;
    if ticks == [] {
      NoneTicked<T>(now, windowNs);
    } else {
      var init, tick := ticks[..|ticks| - 1], ticks[|ticks| - 1];
      RecentCount(init, now, windowNs);
      TickMore(ticks, now, windowNs);
      if tick.value.Some? {
        RecentAppend(Entries(init), Timed(tick.timestamp, tick.value.value), now, windowNs);
      } else {
        assert Entries(init) + [] == Entries(init);
      }
    }
  }

  lemma NoneTicked<T>(now: I64, windowNs: I64)
    ensures RecentTicks<T>([], now, windowNs) == {} && Recent<T>([], now, windowNs) == []
  {
  }

  /** A window of negative length holds the entry taken in last and nothing else. */
  lemma NegativeWindow<T>(ticks: seq<Tick<T>>, windowNs: I64)
    requires Ordered(ticks) && ticks != [] && windowNs < 0
    ensures Window(ticks, windowNs) == EntryOf(ticks[|ticks| - 1])
    ensures Recent(Entries(ticks), Now(ticks), windowNs) == []
  {
    hide Recent, Lead;
    EntriesOrdered(ticks);
    NoneRecent(Entries(ticks), Now(ticks), windowNs);
    StepParts(ticks, windowNs);
    WindowIsSuffix(ticks, windowNs);
    var h, h' := Entries(ticks[..|ticks| - 1]), Entries(ticks);
    forall i | 0 <= i < |h| ensures Expired(h[i], Now(ticks), windowNs) {
      assert h'[i] == h[i];
    }
  }

  // ----- where the window and the recount part -----

  lemma Append<T>(ticks: seq<Tick<T>>, tick: Tick<T>, windowNs: I64)
    ensures var before := Window(ticks, windowNs);
      Window(ticks + [tick], windowNs) == before[Lead(before, tick.timestamp, windowNs)..] + EntryOf(tick)
    ensures Entries(ticks + [tick]) == Entries(ticks) + EntryOf(tick)
  {
    assert (ticks + [tick])[..|ticks|] == ticks;
  }

  lemma RecentAppend<T>(h: seq<Timed<T>>, o: Timed<T>, now: I64, windowNs: I64)
    ensures Recent(h + [o], now, windowNs) == Recent(h, now, windowNs) + if Expired(o, now, windowNs) then [] else [o]
  {
    assert (h + [o])[..|h|] == h;
  }

  lemma ThreeTicks<T>(a: Tick<T>, b: Tick<T>, c: Tick<T>, windowNs: I64)
    requires a.value.Some? && b.value.Some? && c.value.Some?
    ensures var x, y, z := EntryOf(a)[0], EntryOf(b)[0], EntryOf(c)[0];
      var two := (if Expired(x, b.timestamp, windowNs) then [] else [x]) + [y];
      && Window([a, b, c], windowNs) == two[Lead(two, c.timestamp, windowNs)..] + [z]
      && Entries([a, b, c]) == [x, y, z]
  {
    hide Window, Entries;
    Append([], a, windowNs);
    Append([a], b, windowNs);
    Append([a, b], c, windowNs);
    assert [a, b] == [a] + [b] && [a, b, c] == [a, b] + [c] && [] + [a] == [a];
    NoTicks<T>(windowNs);
  }

  lemma NoTicks<T>(windowNs: I64)
    ensures Window<T>([], windowNs) == [] && Entries<T>([]) == []
  {
  }

  lemma NothingRecent<T>(now: I64, windowNs: I64)
    ensures Recent<T>([], now, windowNs) == []
  {
  }

  lemma RecentOfThree<T>(x: Timed<T>, y: Timed<T>, z: Timed<T>, now: I64, windowNs: I64)
    ensures Recent([x, y, z], now, windowNs)
         == (if Expired(x, now, windowNs) then [] else [x])
          + (if Expired(y, now, windowNs) then [] else [y])
          + (if Expired(z, now, windowNs) then [] else [z])
  {
    hide Recent;
    NothingRecent<T>(now, windowNs);
    RecentAppend([], x, now, windowNs);
    RecentAppend([x], y, now, windowNs);
    RecentAppend([x, y], z, now, windowNs);
    assert [x, y] == [x] + [y] && [x, y, z] == [x, y] + [z] && [] + [x] == [x];
  }

  /** The clock goes back and forth: the entry of time 0 has expired at time 11 but stays, behind one that
      has not. */
  lemma StrandedEntryStays()
    ensures var ticks := [Tick(10, Some(0)), Tick(0, Some(1)), Tick(11, Some(2))];
      && Window(ticks, 5) == [Timed(10, 0), Timed(0, 1), Timed(11, 2)]
      && Recent(Entries(ticks), Now(ticks), 5) == [Timed(10, 0), Timed(11, 2)]
  {
    hide Window, Entries, Recent;
    ThreeTicks(Tick(10, Some(0)), Tick(0, Some(1)), Tick(11, Some(2)), 5);
    assert [Timed(10, 0)] + [Timed(0, 1)] == [Timed(10, 0), Timed(0, 1)];
    RecentOfThree(Timed(10, 0), Timed(0, 1), Timed(11, 2), 11, 5);
  }

  /** The entry of time 0 was popped at time 11 and would be recent again at time 3. */
  lemma RevivedEntryIsGone()
    ensures var ticks := [Tick(0, Some(0)), Tick(11, Some(1)), Tick(3, Some(2))];
      && Window(ticks, 5) == [Timed(11, 1), Timed(3, 2)]
      && Recent(Entries(ticks), Now(ticks), 5) == [Timed(0, 0), Timed(11, 1), Timed(3, 2)]
  {
    hide Window, Entries, Recent;
    ThreeTicks(Tick(0, Some(0)), Tick(11, Some(1)), Tick(3, Some(2)), 5);
    assert [] + [Timed(11, 1)] == [Timed(11, 1)];
    RecentOfThree(Timed(0, 0), Timed(11, 1), Timed(3, 2), 3, 5);
  }

  /** A window of negative length still holds the entry just taken in. */
  lemma NegativeWindowHoldsNewest()
    ensures var ticks := [Tick(7, Some(0))];
      Window(ticks, -1) == [Timed(7, 0)] && Recent(Entries(ticks), Now(ticks), -1) == []
  {
  }
}

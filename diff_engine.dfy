/**
  The loops of scraper.py's `run()`: the state dictionary and the list of
  change lines are local variables updated record by record. Each loop is
  proved to compute `Catalog.Diff`, so every property proved about `Diff`
  in `CatalogFacts` holds of what the loops leave behind.
 */
module DiffEngine {
  import opened Wrappers
  import opened Catalog
  import opened CatalogFacts

  /** The records of several targets, target after target. */
  function Flatten(batches: seq<seq<Record>>): seq<Record>
    decreases |batches|
  {
    if batches == [] then [] else Flatten(batches[..|batches| - 1]) + batches[|batches| - 1]
  }

  lemma {:induction false} FlattenAppend(a: seq<seq<Record>>, b: seq<seq<Record>>)
    ensures Flatten(a + b) == Flatten(a) + Flatten(b)
    decreases |b|
  {
    if b == [] {
      assert a + b == a;
    } else {
      var c := b[..|b| - 1];
      assert (a + b)[..|a + b| - 1] == a + c;
      assert (a + b)[|a + b| - 1] == b[|b| - 1];
      FlattenAppend(a, c);
    }
  }

  /** The records of target `t` sit in the flattened list right after the
      records of the targets before it. */
  lemma FlattenAt(batches: seq<seq<Record>>, t: nat)
    requires t < |batches|
    ensures var pre := |Flatten(batches[..t])|;
      && Flatten(batches[..t + 1]) == Flatten(batches[..t]) + batches[t]
      && pre + |batches[t]| <= |Flatten(batches)|
      && Flatten(batches)[pre..pre + |batches[t]|] == batches[t]
  {
    assert batches[..t + 1][..t] == batches[..t];
    assert Flatten(batches[..t + 1]) == Flatten(batches[..t]) + batches[t];
    assert batches == batches[..t + 1] + batches[t + 1..];
    FlattenAppend(batches[..t + 1], batches[t + 1..]);
  }

  /** The `else` branch of the loop body: the record is compared with its
      stored entry by the price, image and (when `textSensor` holds) text
      sensors, in that order, and the entry is stamped with `now`. */
  method Compare(stored0: Entry, p: Record, now: int, textSensor: bool)
    returns (stored: Entry, signals: seq<Event>)
    ensures stored == Refresh(stored0, p, now, textSensor)
    ensures signals == Signals(stored0, p, textSensor)
  {
    stored := stored0;
    signals := [];
    if stored.priceCents != p.priceCents && p.priceCents.Some? {
      signals := signals + [PriceChanged(p.site, p.sku, p.name, stored.priceCents, p.priceCents.value, p.url)];
      stored := stored.(priceCents := p.priceCents);
    }
    if HasSignal(p.imageHash) && p.imageHash != stored.imageHash {
      signals := signals + [ImageChanged(p.site, p.sku, p.name, p.url)];
      stored := stored.(imageUrl := p.imageUrl, imageHash := p.imageHash);
    }
    if textSensor && HasSignal(p.textHash) && p.textHash != stored.textHash {
      signals := signals + [TextChanged(p.site, p.sku, p.name, p.url)];
      stored := stored.(textHash := p.textHash);
    }
    stored := stored.(lastSeen := now);
  }

  /** The body of `run()`'s inner loop for one record `p`: its key is looked
      up, and it is either stored as NEW or compared with its entry. The
      state and lines on entry are those of the first `n` records of `all`
      from `start`, and `p` is the next one. */
  method ObserveRecord(state0: State, changes0: seq<Event>, p: Record, now: int, textSensor: bool,
                       ghost start: State, ghost all: seq<Record>, ghost n: nat)
    returns (state: State, changes: seq<Event>)
    requires n < |all| && all[n] == p
    requires Outcome(state0, changes0) == Pass(start, all, n, now, textSensor)
    ensures Outcome(state, changes) == Pass(start, all, n + 1, now, textSensor)
  {
    var key := Key(p.site, p.sku);
    if key !in state0 {
      changes := changes0 + [New(p.site, p.sku, p.name, p.priceCents, p.url)];
      state := state0[key := Entry(p.site, p.sku, p.name, p.priceCents, p.imageUrl, p.url, p.textHash, p.imageHash, now)];
    } else {
      var stored, signals := Compare(state0[key], p, now, textSensor);
      changes := changes0 + signals;
      state := state0[key := stored];
    }
  }

  /** The inner loop of `run()`: every record one target yields, in order,
      with the change lines appended to the ones already collected. The
      records are the slice of `all` from `base`, and the state and lines
      on entry are those of the first `base` records of `all` from `start`. */
  method DiffBatch(state0: State, changes0: seq<Event>, records: seq<Record>, now: int, textSensor: bool,
                   ghost start: State, ghost all: seq<Record>, ghost base: nat)
    returns (state: State, changes: seq<Event>)
    requires base + |records| <= |all|
    requires all[base..base + |records|] == records
    requires Outcome(state0, changes0) == Pass(start, all, base, now, textSensor)
    ensures Outcome(state, changes) == Pass(start, all, base + |records|, now, textSensor)
  {
    state := state0;
    changes := changes0;
    ghost var n := base;
    for i := 0 to |records|
      invariant n == base + i
      invariant Outcome(state, changes) == Pass(start, all, n, now, textSensor)
    {
      assert all[n] == records[i];
      state, changes := ObserveRecord(state, changes, records[i], now, textSensor, start, all, n);
      n := n + 1;
    }
  }

  /** What each target's fetch yielded: its records, or `None` when the fetch
      raised (an HTTP error or timeout, a body that is not JSON, or a kkiosk
      collection URL without a handle). */
  predicate AllFetched(targets: seq<Option<seq<Record>>>)
  {
    forall t :: 0 <= t < |targets| ==> targets[t].Some?
  }

  /** The records of the targets whose fetch succeeded, target by target. */
  function Fetched(targets: seq<Option<seq<Record>>>): seq<seq<Record>>
  {
    seq(|targets|, t requires 0 <= t < |targets| => if targets[t].Some? then targets[t].value else [])
  }

  /** One of `run()`'s two outer loops: the targets in order, all with the
      same sensor setting and the same `now`. A target whose fetch raises
      ends the loop (and `run()`); otherwise the loop computes the pass over
      all records, and no key is ever deleted. */
  method DiffTargets(state0: State, targets: seq<Option<seq<Record>>>, now: int, textSensor: bool)
    returns (fetched: bool, state: State, changes: seq<Event>)
    ensures fetched == AllFetched(targets)
    ensures fetched ==> Outcome(state, changes) == Diff(state0, Flatten(Fetched(targets)), now, textSensor)
    ensures fetched ==> state.Keys == state0.Keys + Seen(Flatten(Fetched(targets)), |Flatten(Fetched(targets))|)
  {
    ghost var batches := Fetched(targets);
    ghost var all := Flatten(batches);
    assert |batches| == |targets|;
    state := state0;
    changes := [];
    assert Flatten(batches[..0]) == [];
    for t := 0 to |targets|
      invariant forall u :: 0 <= u < t ==> targets[u].Some?
      invariant |Flatten(batches[..t])| <= |all|
      invariant Outcome(state, changes) == Pass(state0, all, |Flatten(batches[..t])|, now, textSensor)
    {
      if targets[t].None? {
        return false, state, changes;
      }
      assert forall u :: 0 <= u < t + 1 ==> targets[u].Some?;
      assert batches[t] == targets[t].value;
      FlattenAt(batches, t);
      state, changes := DiffBatch(state, changes, targets[t].value, now, textSensor, state0, all, |Flatten(batches[..t])|);
    }
    assert batches[..|batches|] == batches;
    PassKeys(state0, all, |all|, now, textSensor);
    fetched := true;
  }

  /** `run()` between loading and saving the state: every kkiosk collection
      with the text sensor off, then every HTML category with it on, all
      stamped with the same `now`. When a fetch raises, `run()` ends before
      sending the report and saving the state, so there is no report.
      Otherwise the report is the saved state and the change lines; the
      kkiosk lines hold no TEXT, and no key of the loaded state is lost. */
  method Run(loaded: State, kkiosk: seq<Option<seq<Record>>>, others: seq<Option<seq<Record>>>, now: int)
    returns (report: Option<Outcome>)
    ensures report.Some? <==> AllFetched(kkiosk) && AllFetched(others)
    ensures report.Some? ==>
      var first := Diff(loaded, Flatten(Fetched(kkiosk)), now, false);
      var second := Diff(first.state, Flatten(Fetched(others)), now, true);
      && report.value.state == second.state
      && report.value.events == first.events + second.events
      && (forall i :: 0 <= i < |first.events| ==> !report.value.events[i].TextChanged?)
    ensures report.Some? ==>
      report.value.state.Keys == loaded.Keys + Seen(Flatten(Fetched(kkiosk)), |Flatten(Fetched(kkiosk))|)
                                             + Seen(Flatten(Fetched(others)), |Flatten(Fetched(others))|)
  {
    var kFetched, kState, kChanges := DiffTargets(loaded, kkiosk, now, false);
    if !kFetched {
      return None;
    }
    var hFetched, saved, hChanges := DiffTargets(kState, others, now, true);
    if !hFetched {
      return None;
    }
    var changes := kChanges + hChanges;
    PassNoTextWithoutSensor(loaded, Flatten(Fetched(kkiosk)), |Flatten(Fetched(kkiosk))|, now);
    forall i | 0 <= i < |kChanges|
      ensures !changes[i].TextChanged?
    {
      assert changes[i] == kChanges[i];
      assert kChanges[i] in kChanges;
    }
    report := Some(Outcome(saved, changes));
  }
}

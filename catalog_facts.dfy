/**
  Properties of a batch of records run through `Catalog.Pass` and
  `Catalog.Diff`: which keys end up in the state, which entries a pass
  leaves alone, how many NEW events a key produces, and when a second pass
  over the same batch is silent. The lemmas about the first `n` records of
  a batch hold for the whole batch with `n = |rs|`.
 */
module CatalogFacts {
  import opened Wrappers
  import opened Catalog

  /** The keys of the first `n` records of a batch. */
  function Seen(rs: seq<Record>, n: nat): (ks: set<string>)
    requires n <= |rs|
    ensures n > 0 ==> RecordKey(rs[n - 1]) in ks
  {
    if n == 0 then {} else Seen(rs, n - 1) + {RecordKey(rs[n - 1])}
  }

  /** Two records carry the same readings for the three sensors. */
  predicate SameReadings(a: Record, b: Record)
  {
    a.priceCents == b.priceCents && a.imageHash == b.imageHash && a.textHash == b.textHash
  }

  /** Records of the batch that share a key carry the same readings, as when
      one product is listed unchanged in two overlapping collections. A batch
      without repeated keys has this property trivially. */
  predicate AgreeOnKeys(rs: seq<Record>)
  {
    forall i, j :: 0 <= i < j < |rs| && RecordKey(rs[i]) == RecordKey(rs[j]) ==> SameReadings(rs[i], rs[j])
  }

  // ---------------------------------------------------------------------
  // Keys and entries

  /** A pass never deletes a key: the state afterwards holds exactly the keys
      it held before and the keys of the records seen. */
  lemma {:induction false} PassKeys(s: State, rs: seq<Record>, n: nat, now: int, textSensor: bool)
    requires n <= |rs|
    ensures Pass(s, rs, n, now, textSensor).state.Keys == s.Keys + Seen(rs, n)
  {
    if n > 0 {
      PassKeys(s, rs, n - 1, now, textSensor);
      var prev := Pass(s, rs, n - 1, now, textSensor);
      var r := rs[n - 1];
      assert Pass(s, rs, n, now, textSensor) == Step(prev, r, now, textSensor);
      assert Observe(prev.state, r, now, textSensor).state.Keys == prev.state.Keys + {RecordKey(r)};
    }
  }

  /** Every key of the records seen is stamped with `now`; a key they do not
      mention keeps its entry unchanged; and a key that was already tracked
      keeps its site, sku, name and URL whatever the records say. */
  lemma {:induction false} PassEntry(s: State, rs: seq<Record>, n: nat, now: int, textSensor: bool, k: string)
    requires n <= |rs|
    requires k in s || k in Seen(rs, n)
    ensures k in Pass(s, rs, n, now, textSensor).state
    ensures var e := Pass(s, rs, n, now, textSensor).state[k];
      && (k in Seen(rs, n) ==> e.lastSeen == now)
      && (k !in Seen(rs, n) ==> e == s[k])
      && (k in s ==> e.site == s[k].site && e.sku == s[k].sku && e.name == s[k].name && e.url == s[k].url)
  {
    if n > 0 {
      var r := rs[n - 1];
      if k in s || k in Seen(rs, n - 1) {
        PassEntry(s, rs, n - 1, now, textSensor, k);
      }
      var prev := Pass(s, rs, n - 1, now, textSensor).state;
      assert Pass(s, rs, n, now, textSensor).state == Observe(prev, r, now, textSensor).state;
      assert Seen(rs, n) == Seen(rs, n - 1) + {RecordKey(r)};
      ObserveEntry(prev, r, now, textSensor, k);
    }
  }

  /** What one record does to the entry under key `k`. */
  lemma ObserveEntry(S: State, r: Record, now: int, textSensor: bool, k: string)
    requires k in S || k == RecordKey(r)
    ensures k in Observe(S, r, now, textSensor).state
    ensures var e := Observe(S, r, now, textSensor).state[k];
      && (k == RecordKey(r) ==> e.lastSeen == now)
      && (k != RecordKey(r) ==> e == S[k])
      && (k in S ==> e.site == S[k].site && e.sku == S[k].sku && e.name == S[k].name && e.url == S[k].url)
  {
    if RecordKey(r) in S {
      ObserveTracked(S, r, now, textSensor);
    } else {
      ObserveUnseen(S, r, now, textSensor);
    }
  }

  // ---------------------------------------------------------------------
  // Events

  /** The number of NEW events for key `k`. */
  function CountNew(evs: seq<Event>, k: string): nat
  {
    if evs == [] then 0
    else CountNew(evs[..|evs| - 1], k) + (if evs[|evs| - 1].New? && EventKey(evs[|evs| - 1]) == k then 1 else 0)
  }

  lemma {:induction false} CountNewAppend(a: seq<Event>, b: seq<Event>, k: string)
    ensures CountNew(a + b, k) == CountNew(a, k) + CountNew(b, k)
    decreases |b|
  {
    if b == [] {
      assert a + b == a;
    } else {
      assert (a + b)[..|a + b| - 1] == a + b[..|b| - 1];
      assert (a + b)[|a + b| - 1] == b[|b| - 1];
      CountNewAppend(a, b[..|b| - 1], k);
    }
  }

  /** Without NEW events in a list there is nothing to count. */
  lemma {:induction false} CountNewNone(evs: seq<Event>, k: string)
    requires forall ev :: ev in evs ==> !ev.New?
    ensures CountNew(evs, k) == 0
    decreases |evs|
  {
    if evs != [] {
      assert evs[|evs| - 1] in evs;
      CountNewNone(evs[..|evs| - 1], k);
    }
  }

  /** One record adds a NEW event for `k` exactly when it carries key `k`
      and `k` is not tracked yet. */
  lemma ObserveNewCount(S: State, r: Record, now: int, textSensor: bool, k: string)
    ensures CountNew(Observe(S, r, now, textSensor).events, k)
      == if RecordKey(r) == k && k !in S then 1 else 0
  {
    var o := Observe(S, r, now, textSensor);
    if RecordKey(r) in S {
      ObserveTracked(S, r, now, textSensor);
      CountNewNone(o.events, k);
    } else {
      assert o.events == [NewEvent(r)];
      assert o.events[..0] == [];
    }
  }

  /** A key produces exactly one NEW event over a pass when the state did not
      hold it and the records seen mention it, and none otherwise: a key
      repeated within a batch is NEW only the first time. */
  lemma {:induction false} PassNewOnce(s: State, rs: seq<Record>, n: nat, now: int, textSensor: bool, k: string)
    requires n <= |rs|
    ensures CountNew(Pass(s, rs, n, now, textSensor).events, k)
      == if k !in s && k in Seen(rs, n) then 1 else 0
  {
    if n > 0 {
      var r := rs[n - 1];
      var prev := Pass(s, rs, n - 1, now, textSensor);
      var last := Observe(prev.state, r, now, textSensor);
      assert Pass(s, rs, n, now, textSensor).events == prev.events + last.events;
      assert Seen(rs, n) == Seen(rs, n - 1) + {RecordKey(r)};
      PassNewOnce(s, rs, n - 1, now, textSensor, k);
      PassKeys(s, rs, n - 1, now, textSensor);
      assert k in prev.state <==> k in s || k in Seen(rs, n - 1);
      CountNewAppend(prev.events, last.events, k);
      ObserveNewCount(prev.state, r, now, textSensor, k);
    }
  }

  /** Every event of a pass names a key of the records seen. */
  lemma {:induction false} PassEventKeys(s: State, rs: seq<Record>, n: nat, now: int, textSensor: bool)
    requires n <= |rs|
    ensures forall ev :: ev in Pass(s, rs, n, now, textSensor).events ==> EventKey(ev) in Seen(rs, n)
  {
    if n > 0 {
      PassEventKeys(s, rs, n - 1, now, textSensor);
      ObserveOrder(Pass(s, rs, n - 1, now, textSensor).state, rs[n - 1], now, textSensor);
    }
  }

  /** With the text sensor off (the kkiosk path) a pass emits no TEXT event. */
  lemma {:induction false} PassNoTextWithoutSensor(s: State, rs: seq<Record>, n: nat, now: int)
    requires n <= |rs|
    ensures forall ev :: ev in Pass(s, rs, n, now, false).events ==> !ev.TextChanged?
  {
    if n > 0 {
      PassNoTextWithoutSensor(s, rs, n - 1, now);
      var prev := Pass(s, rs, n - 1, now, false).state;
      if RecordKey(rs[n - 1]) in prev {
        ObserveText(prev, rs[n - 1], now, false);
      }
    }
  }

  // ---------------------------------------------------------------------
  // A second pass

  /** No sensor fires for `r` against state `S`, and its key is tracked. */
  predicate Quiet(S: State, r: Record, textSensor: bool)
  {
    RecordKey(r) in S
    && !PriceFires(S[RecordKey(r)], r)
    && !ImageFires(S[RecordKey(r)], r)
    && !(textSensor && TextFires(S[RecordKey(r)], r))
  }

  /** After a pass over records whose repeated keys agree on their readings
      every one of them is quiet against the resulting state. */
  lemma {:induction false} PassQuietsAll(s: State, rs: seq<Record>, n: nat, now: int, textSensor: bool)
    requires n <= |rs|
    requires AgreeOnKeys(rs)
    ensures forall i :: 0 <= i < n ==> Quiet(Pass(s, rs, n, now, textSensor).state, rs[i], textSensor)
  {
    if n > 0 {
      var r := rs[n - 1];
      var prev := Pass(s, rs, n - 1, now, textSensor).state;
      var next := Observe(prev, r, now, textSensor).state;
      assert next == Pass(s, rs, n, now, textSensor).state;
      PassQuietsAll(s, rs, n - 1, now, textSensor);
      forall i | 0 <= i < n
        ensures Quiet(next, rs[i], textSensor)
      {
        if i == n - 1 {
          ObserveIdempotent(prev, r, now, textSensor);
        } else if RecordKey(rs[i]) == RecordKey(r) {
          ObserveIdempotent(prev, r, now, textSensor);
          assert Quiet(next, r, textSensor);
          assert SameReadings(rs[i], r);
        } else {
          assert Quiet(prev, rs[i], textSensor);
        }
      }
    }
  }

  /** A quiet record against `S` is still quiet against a state whose entry
      for its key differs from `S`'s at most in `lastSeen` (any stamp): it
      emits nothing and only stamps its entry with `now`. */
  lemma ObserveQuiet(S: State, P: State, r: Record, now: int, textSensor: bool)
    requires Quiet(S, r, textSensor)
    requires RecordKey(r) in P
    requires P[RecordKey(r)] == S[RecordKey(r)].(lastSeen := P[RecordKey(r)].lastSeen)
    ensures Observe(P, r, now, textSensor).events == []
    ensures Observe(P, r, now, textSensor).state == P[RecordKey(r) := S[RecordKey(r)].(lastSeen := now)]
  {
  }

  /** Records that are all quiet emit nothing and add no key. */
  lemma {:induction false} PassOfQuietRecords(S: State, rs: seq<Record>, n: nat, now: int, textSensor: bool)
    requires n <= |rs|
    requires forall i :: 0 <= i < n ==> Quiet(S, rs[i], textSensor)
    ensures Pass(S, rs, n, now, textSensor).events == []
    ensures Pass(S, rs, n, now, textSensor).state.Keys == S.Keys
  {
    if n > 0 {
      var r := rs[n - 1];
      PassOfQuietRecords(S, rs, n - 1, now, textSensor);
      var prev := Pass(S, rs, n - 1, now, textSensor);
      assert Pass(S, rs, n, now, textSensor) == Step(prev, r, now, textSensor);
      assert Quiet(S, r, textSensor);
      PassOfQuietEntry(S, rs, n - 1, now, textSensor, RecordKey(r));
      ObserveQuiet(S, prev.state, r, now, textSensor);
    }
  }

  /** Quiet records only stamp the entries of their keys with `now`. */
  lemma {:induction false} PassOfQuietEntry(S: State, rs: seq<Record>, n: nat, now: int, textSensor: bool, k: string)
    requires n <= |rs|
    requires forall i :: 0 <= i < n ==> Quiet(S, rs[i], textSensor)
    requires k in S
    ensures k in Pass(S, rs, n, now, textSensor).state
    ensures Pass(S, rs, n, now, textSensor).state[k] == if k in Seen(rs, n) then S[k].(lastSeen := now) else S[k]
  {
    if n > 0 {
      var r := rs[n - 1];
      var prev := Pass(S, rs, n - 1, now, textSensor);
      assert Pass(S, rs, n, now, textSensor) == Step(prev, r, now, textSensor);
      assert Seen(rs, n) == Seen(rs, n - 1) + {RecordKey(r)};
      assert Quiet(S, r, textSensor);
      PassOfQuietEntry(S, rs, n - 1, now, textSensor, k);
      PassOfQuietEntry(S, rs, n - 1, now, textSensor, RecordKey(r));
      ObserveQuiet(S, prev.state, r, now, textSensor);
    }
  }

  /** Running a batch whose repeated keys agree on their readings a second
      time, at any later time, emits no event and changes nothing but the
      `lastSeen` stamps of the batch's keys; at the same time it changes
      nothing at all. */
  lemma DiffIdempotent(s: State, rs: seq<Record>, now: int, later: int, textSensor: bool)
    requires AgreeOnKeys(rs)
    ensures var o1 := Diff(s, rs, now, textSensor);
      var o2 := Diff(o1.state, rs, later, textSensor);
      && o2.events == []
      && o2.state.Keys == o1.state.Keys
      && (forall k :: k in o1.state ==>
            o2.state[k] == if k in Seen(rs, |rs|) then o1.state[k].(lastSeen := later) else o1.state[k])
      && (later == now ==> o2.state == o1.state)
  {
    var o1 := Diff(s, rs, now, textSensor);
    var o2 := Diff(o1.state, rs, later, textSensor);
    PassQuietsAll(s, rs, |rs|, now, textSensor);
    PassOfQuietRecords(o1.state, rs, |rs|, later, textSensor);
    forall k | k in o1.state
      ensures o2.state[k] == if k in Seen(rs, |rs|) then o1.state[k].(lastSeen := later) else o1.state[k]
      ensures later == now ==> o2.state[k] == o1.state[k]
    {
      PassOfQuietEntry(o1.state, rs, |rs|, later, textSensor, k);
      if k in Seen(rs, |rs|) {
        PassEntry(s, rs, |rs|, now, textSensor, k);
      }
    }
  }

  /** Repeated keys whose readings differ break the second-pass silence: the
      same product listed twice with two prices leaves the second price
      stored, and a second pass reports the first one again as a price
      change. */
  lemma RepeatedKeyBreaksIdempotence()
    ensures var a := Record("kkiosk", "42", None, Some(100), None, "u", None, None);
      var b := a.(priceCents := Some(200));
      var o1 := Diff(map[], [a, b], 0, false);
      var o2 := Diff(o1.state, [a, b], 0, false);
      o2.events != []
  {
    var a := Record("kkiosk", "42", None, Some(100), None, "u", None, None);
    var b := a.(priceCents := Some(200));
    var o1 := Diff(map[], [a, b], 0, false);
    var first := Pass(map[], [a, b], 1, 0, false);
    assert Pass(map[], [a, b], 0, 0, false) == Outcome(map[], []);
    assert first == Step(Outcome(map[], []), a, 0, false);
    assert o1 == Step(first, b, 0, false);
    assert o1.state[RecordKey(a)].priceCents == Some(200);
    var step := Observe(o1.state, a, 0, false);
    assert PriceFires(o1.state[RecordKey(a)], a);
    assert !ImageFires(o1.state[RecordKey(a)], a);
    assert step.events == [PriceChanged("kkiosk", "42", None, Some(200), 100, "u")];
    var mid := Pass(o1.state, [a, b], 1, 0, false);
    assert Pass(o1.state, [a, b], 0, 0, false) == Outcome(o1.state, []);
    assert mid.events == [] + step.events;
    assert mid.events != [];
    var o2 := Diff(o1.state, [a, b], 0, false);
    assert o2 == Step(mid, b, 0, false);
    assert o2.events == mid.events + Observe(mid.state, b, 0, false).events;
  }
}

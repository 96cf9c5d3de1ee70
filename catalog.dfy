/**
  The catalog diff engine of scraper.py's `run()`: the state maps `"site:sku"`
  keys to stored entries, and each product record either creates an entry
  (a NEW event) or is compared field by field against its entry by
  independent sensors for price, image and (on the HTML path) card text.

  This module holds the data model and the specification of one pass as
  functions; `DiffEngine` holds the loops that the source runs, proved equal
  to these functions, and `CatalogFacts` the properties of a whole batch.
 */
module Catalog {
  import opened Wrappers

  /** One product observation as a fetcher yields it (the dict `p`), together
      with the image fingerprint fetched for its `imageUrl` in the same
      iteration (`img_hash`); `imageHash` is `None` when there was no URL or
      the fetch failed. `textHash` is `None` on the kkiosk path. */
  datatype Record = Record(
    site: string,
    sku: string,
    name: Option<string>,
    priceCents: Option<int>,
    imageUrl: Option<string>,
    url: string,
    textHash: Option<string>,
    imageHash: Option<string>)

  /** What the state stores for one key. */
  datatype Entry = Entry(
    site: string,
    sku: string,
    name: Option<string>,
    priceCents: Option<int>,
    imageUrl: Option<string>,
    url: string,
    textHash: Option<string>,
    imageHash: Option<string>,
    lastSeen: int)

  /** The state dictionary, keyed by `"site:sku"`. */
  type State = map<string, Entry>

  /** One line of the change report, with the fields the line shows. Every
      kind names the record's site, sku, name and URL. */
  datatype Event =
    | New(site: string, sku: string, name: Option<string>, priceCents: Option<int>, url: string)
    | PriceChanged(site: string, sku: string, name: Option<string>, oldCents: Option<int>, newCents: int, url: string)
    | ImageChanged(site: string, sku: string, name: Option<string>, url: string)
    | TextChanged(site: string, sku: string, name: Option<string>, url: string)

  /** The state after a pass and the events it emitted, in order. */
  datatype Outcome = Outcome(state: State, events: seq<Event>)

  /** `f"{site}:{sku}"` */
  function Key(site: string, sku: string): string
  {
    site + ":" + sku
  }

  function RecordKey(r: Record): string
  {
    Key(r.site, r.sku)
  }

  function EventKey(e: Event): string
  {
    Key(e.site, e.sku)
  }

  /** The text before the first colon of a key. */
  function SiteOf(k: string): (site: string)
    ensures ':' !in site && |site| <= |k|
  {
    if k == [] || k[0] == ':' then [] else [k[0]] + SiteOf(k[1..])
  }

  /** A colon-free site is what comes before the first colon of its key. */
  lemma {:induction false} SiteOfKey(site: string, sku: string)
    requires ':' !in site
    ensures SiteOf(Key(site, sku)) == site
  {
    if site != [] {
      assert Key(site, sku)[1..] == Key(site[1..], sku);
      SiteOfKey(site[1..], sku);
    }
  }

  /** The key determines site and sku as long as the site has no colon (the
      site names of the scraper have none). */
  lemma KeyInjective(site1: string, sku1: string, site2: string, sku2: string)
    requires ':' !in site1 && ':' !in site2
    requires Key(site1, sku1) == Key(site2, sku2)
    ensures site1 == site2 && sku1 == sku2
  {
    var k := Key(site1, sku1);
    SiteOfKey(site1, sku1);
    SiteOfKey(site2, sku2);
    assert sku1 == k[|site1| + 1..] == sku2;
  }

  /** Python truthiness of an optional fingerprint: present and non-empty. */
  predicate HasSignal(h: Option<string>)
  {
    h.Some? && h.value != ""
  }

  /** The price sensor: a parsed price that differs from the stored one. */
  predicate PriceFires(e: Entry, r: Record)
  {
    e.priceCents != r.priceCents && r.priceCents.Some?
  }

  /** The image sensor: a fetched fingerprint that differs from the stored one. */
  predicate ImageFires(e: Entry, r: Record)
  {
    HasSignal(r.imageHash) && r.imageHash != e.imageHash
  }

  /** The text sensor: a card-text fingerprint that differs from the stored one. */
  predicate TextFires(e: Entry, r: Record)
  {
    HasSignal(r.textHash) && r.textHash != e.textHash
  }

  /** `{**p, "image_hash": img_hash, "last_seen": now}` */
  function Track(r: Record, now: int): Entry
  {
    Entry(r.site, r.sku, r.name, r.priceCents, r.imageUrl, r.url, r.textHash, r.imageHash, now)
  }

  function NewEvent(r: Record): Event
  {
    New(r.site, r.sku, r.name, r.priceCents, r.url)
  }

  /** The stored entry after a tracked record: each sensor that fires takes
      its own fields from the record, and `lastSeen` becomes `now`. */
  function Refresh(e: Entry, r: Record, now: int, textSensor: bool): Entry
  {
    e.(priceCents := if PriceFires(e, r) then r.priceCents else e.priceCents,
       imageUrl := if ImageFires(e, r) then r.imageUrl else e.imageUrl,
       imageHash := if ImageFires(e, r) then r.imageHash else e.imageHash,
       textHash := if textSensor && TextFires(e, r) then r.textHash else e.textHash,
       lastSeen := now)
  }

  function PriceSignal(e: Entry, r: Record): seq<Event>
  {
    if PriceFires(e, r) then [PriceChanged(r.site, r.sku, r.name, e.priceCents, r.priceCents.value, r.url)] else []
  }

  function ImageSignal(e: Entry, r: Record): seq<Event>
  {
    if ImageFires(e, r) then [ImageChanged(r.site, r.sku, r.name, r.url)] else []
  }

  function TextSignal(e: Entry, r: Record, textSensor: bool): seq<Event>
  {
    if textSensor && TextFires(e, r) then [TextChanged(r.site, r.sku, r.name, r.url)] else []
  }

  /** The events of a tracked record: one per sensor that fires, price
      first, then image, then text. */
  function Signals(e: Entry, r: Record, textSensor: bool): seq<Event>
  {
    PriceSignal(e, r) + ImageSignal(e, r) + TextSignal(e, r, textSensor)
  }

  /** One record against the state. `textSensor` is on for the HTML category
      targets and off for kkiosk. */
  function Observe(s: State, r: Record, now: int, textSensor: bool): Outcome
  {
    var k := RecordKey(r);
    if k !in s then Outcome(s[k := Track(r, now)], [NewEvent(r)])
    else Outcome(s[k := Refresh(s[k], r, now, textSensor)], Signals(s[k], r, textSensor))
  }

  /** `o` followed by one more record. */
  function Step(o: Outcome, r: Record, now: int, textSensor: bool): Outcome
  {
    var last := Observe(o.state, r, now, textSensor);
    Outcome(last.state, o.events + last.events)
  }

  /** The first `n` records of a batch, one after the other, from state `s`. */
  function Pass(s: State, rs: seq<Record>, n: nat, now: int, textSensor: bool): Outcome
    requires n <= |rs|
  {
    if n == 0 then Outcome(s, []) else Step(Pass(s, rs, n - 1, now, textSensor), rs[n - 1], now, textSensor)
  }

  /** A whole batch of records, one after the other, from state `s`. */
  function Diff(s: State, rs: seq<Record>, now: int, textSensor: bool): Outcome
  {
    Pass(s, rs, |rs|, now, textSensor)
  }

  /** The position of an event kind in the fixed order NEW, PRICE, IMAGE, TEXT. */
  function Rank(e: Event): nat
  {
    match e
    case New(_, _, _, _, _) => 0
    case PriceChanged(_, _, _, _, _, _) => 1
    case ImageChanged(_, _, _, _) => 2
    case TextChanged(_, _, _, _) => 3
  }

  // ---------------------------------------------------------------------
  // One record

  /** An unseen key produces exactly one NEW event and is stored with every
      field of the record, the fetched image fingerprint (possibly `None`)
      and `lastSeen = now`; no other key changes. */
  lemma ObserveUnseen(s: State, r: Record, now: int, textSensor: bool)
    requires RecordKey(r) !in s
    ensures var o := Observe(s, r, now, textSensor); var k := RecordKey(r);
      && o.events == [New(r.site, r.sku, r.name, r.priceCents, r.url)]
      && o.state.Keys == s.Keys + {k}
      && o.state[k].site == r.site && o.state[k].sku == r.sku && o.state[k].name == r.name
      && o.state[k].priceCents == r.priceCents && o.state[k].imageUrl == r.imageUrl
      && o.state[k].url == r.url && o.state[k].textHash == r.textHash
      && o.state[k].imageHash == r.imageHash && o.state[k].lastSeen == now
      && (forall k' :: k' in s ==> o.state[k'] == s[k'])
  {
  }

  /** Price sensor: a PRICE(old, new) event is emitted exactly when the record
      has a price and it differs from the stored one, and then the stored
      price becomes the new one; a missing price never fires and never
      overwrites. */
  lemma ObservePrice(s: State, r: Record, now: int, textSensor: bool)
    requires RecordKey(r) in s
    ensures var o := Observe(s, r, now, textSensor); var e := s[RecordKey(r)];
      && ((exists ev :: ev in o.events && ev.PriceChanged?) <==> (r.priceCents.Some? && r.priceCents != e.priceCents))
      && (forall ev :: ev in o.events && ev.PriceChanged? ==> ev.oldCents == e.priceCents && r.priceCents == Some(ev.newCents))
      && o.state[RecordKey(r)].priceCents == (if r.priceCents.Some? then r.priceCents else e.priceCents)
  {
    var o := Observe(s, r, now, textSensor);
    var e := s[RecordKey(r)];
    if PriceFires(e, r) {
      assert o.events[0].PriceChanged?;
    }
  }

  /** Image sensor: IMAGE is emitted exactly when the fetched fingerprint is
      present, non-empty and differs from the stored one, and then the image
      URL and fingerprint are overwritten together; otherwise both stay. */
  lemma ObserveImage(s: State, r: Record, now: int, textSensor: bool)
    requires RecordKey(r) in s
    ensures var o := Observe(s, r, now, textSensor); var e := s[RecordKey(r)]; var n := o.state[RecordKey(r)];
      && ((exists ev :: ev in o.events && ev.ImageChanged?) <==> (HasSignal(r.imageHash) && r.imageHash != e.imageHash))
      && (if HasSignal(r.imageHash) && r.imageHash != e.imageHash
          then n.imageUrl == r.imageUrl && n.imageHash == r.imageHash
          else n.imageUrl == e.imageUrl && n.imageHash == e.imageHash)
  {
    var o := Observe(s, r, now, textSensor);
    var e := s[RecordKey(r)];
    if ImageFires(e, r) {
      assert ImageChanged(r.site, r.sku, r.name, r.url) in o.events;
    }
  }

  /** Text sensor: with the sensor on, TEXT is emitted exactly when the card
      fingerprint is present, non-empty and differs, and only `textHash` is
      overwritten; with it off (the kkiosk path) TEXT is never emitted and
      `textHash` never changes. */
  lemma ObserveText(s: State, r: Record, now: int, textSensor: bool)
    requires RecordKey(r) in s
    ensures var o := Observe(s, r, now, textSensor); var e := s[RecordKey(r)];
      && ((exists ev :: ev in o.events && ev.TextChanged?) <==> (textSensor && HasSignal(r.textHash) && r.textHash != e.textHash))
      && o.state[RecordKey(r)].textHash
         == (if textSensor && HasSignal(r.textHash) then r.textHash else e.textHash)
  {
    var o := Observe(s, r, now, textSensor);
    var e := s[RecordKey(r)];
    if textSensor && TextFires(e, r) {
      assert TextChanged(r.site, r.sku, r.name, r.url) in o.events;
    }
  }

  /** A tracked key is stamped with `now` whether or not a sensor fired, keeps
      its site, sku, name and URL, produces no NEW event, and no other key
      changes. */
  lemma ObserveTracked(s: State, r: Record, now: int, textSensor: bool)
    requires RecordKey(r) in s
    ensures var o := Observe(s, r, now, textSensor); var k := RecordKey(r);
      && o.state.Keys == s.Keys
      && o.state[k].lastSeen == now
      && o.state[k].site == s[k].site && o.state[k].sku == s[k].sku
      && o.state[k].name == s[k].name && o.state[k].url == s[k].url
      && (forall ev :: ev in o.events ==> !ev.New?)
      && |o.events| <= 3
      && (forall k' :: k' in s && k' != k ==> o.state[k'] == s[k'])
  {
  }

  /** The events of one record all carry its key and come in the fixed order
      NEW, PRICE, IMAGE, TEXT, each kind at most once. */
  lemma ObserveOrder(s: State, r: Record, now: int, textSensor: bool)
    ensures var o := Observe(s, r, now, textSensor);
      && (forall ev :: ev in o.events ==> EventKey(ev) == RecordKey(r))
      && (forall i, j :: 0 <= i < j < |o.events| ==> Rank(o.events[i]) < Rank(o.events[j]))
  {
  }

  /** Seeing the same record again right away emits nothing and changes
      nothing: every sensor already agrees with what it stored. */
  lemma ObserveIdempotent(s: State, r: Record, now: int, textSensor: bool)
    ensures var o1 := Observe(s, r, now, textSensor);
      var o2 := Observe(o1.state, r, now, textSensor);
      o2.events == [] && o2.state == o1.state
  {
    var k := RecordKey(r);
    var o1 := Observe(s, r, now, textSensor);
    var e := o1.state[k];
    assert !PriceFires(e, r) && !ImageFires(e, r) && !(textSensor && TextFires(e, r));
    assert Refresh(e, r, now, textSensor) == e;
  }
}

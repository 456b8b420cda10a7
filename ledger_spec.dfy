/**
 * The event ledger of src/fsvideo.js: for each tagged element an ordered list
 * of `[event, handler, wrapper]` triples. This module holds the values and the
 * specification of what `_off` does to one element's list; the class that
 * keeps the table and the native listeners in step is in module Ledger.
 */
module LedgerSpec {
  import opened Wrappers
  import opened Dom

  /** The identity of a handler function given to `_on` (compared with `===`). */
  datatype Handler = LoadImg | LoadedMetaData | EndHandler | Resize | Custom(id: nat)

  /**
   * The closure `wrapper` that `_on` builds: it captures the element, the
   * event, the handler and the `once` flag. Each call of `_on` allocates a new one.
   */
  class Wrapper {
    const element: Element
    const event: string
    const handler: Handler
    const once: bool

    constructor (element: Element, event: string, handler: Handler, once: bool)
      ensures this.element == element && this.event == event
      ensures this.handler == handler && this.once == once
    {
      this.element := element;
      this.event := event;
      this.handler := handler;
      this.once := once;
    }
  }

  /** One `[event, handler, wrapper]` triple of the ledger. */
  datatype Entry = Entry(event: string, handler: Handler, wrapper: Wrapper)

  /** A native registration `element.addEventListener(event, wrapper, false)`. */
  datatype Listener = Listener(element: Element, event: string, wrapper: Wrapper)

  /** `item[0] === event || event === undefined` */
  predicate Matches(e: Entry, event: Option<string>)
  {
    event.None? || e.event == event.value
  }

  /** The entry matches the event and `item[1] === handler`. */
  predicate Hit(e: Entry, event: Option<string>, handler: Handler)
  {
    Matches(e, event) && e.handler == handler
  }

  /** The highest index whose entry is a hit, if there is one. */
  function LastHit(s: seq<Entry>, event: Option<string>, handler: Handler): (k: Option<nat>)
    ensures k.Some? ==> k.value < |s| && Hit(s[k.value], event, handler)
    ensures k.Some? ==> forall j :: k.value < j < |s| ==> !Hit(s[j], event, handler)
    ensures k.None? <==> forall j :: 0 <= j < |s| ==> !Hit(s[j], event, handler)
  {
    if s == [] then None
    else if Hit(s[|s| - 1], event, handler) then Some(|s| - 1)
    else LastHit(s[..|s| - 1], event, handler)
  }

  /** No hit at index `i` or after it. */
  predicate NoHitFrom(s: seq<Entry>, i: nat, event: Option<string>, handler: Handler)
  {
    forall j :: i <= j < |s| ==> !Hit(s[j], event, handler)
  }

  /** The backwards walk with a handler stops at the first hit from the end: that entry, and only it, goes. */
  lemma NewestAt(s: seq<Entry>, i: nat, event: Option<string>, handler: Handler)
    requires i < |s| && Hit(s[i], event, handler) && NoHitFrom(s, i + 1, event, handler)
    ensures Deregister(s, event, Some(handler)) == s[..i] + s[i + 1..]
    ensures Removed(s, event, Some(handler)) == [s[i]]
  {
    assert LastHit(s, event, handler) == Some(i);
  }

  /** A walk with a handler that meets no hit changes nothing. */
  lemma NoHitAtAll(s: seq<Entry>, event: Option<string>, handler: Handler)
    requires NoHitFrom(s, 0, event, handler)
    ensures Deregister(s, event, Some(handler)) == s && Removed(s, event, Some(handler)) == []
  {
  }

  /** The entries that survive a "remove every match" pass, in their order. */
  function Keep(s: seq<Entry>, event: Option<string>): seq<Entry>
  {
    if s == [] then []
    else (if Matches(s[0], event) then [] else [s[0]]) + Keep(s[1..], event)
  }

  /** The entries a "remove every match" pass takes out. */
  function Dropped(s: seq<Entry>, event: Option<string>): seq<Entry>
  {
    if s == [] then []
    else (if Matches(s[0], event) then [s[0]] else []) + Dropped(s[1..], event)
  }

  /**
   * What `_off(element, event, handler)` leaves in the element's list: with a
   * handler, the list without its last hit; without one, the list without any
   * entry of that event (of any event when `event` is undefined).
   */
  function Deregister(s: seq<Entry>, event: Option<string>, handler: Option<Handler>): seq<Entry>
  {
    match handler
    case None => Keep(s, event)
    case Some(h) =>
      match LastHit(s, event, h)
      case None => s
      case Some(k) => s[..k] + s[k + 1..]
  }

  /** The entries `_off` takes out of the list (and whose wrappers it detaches). */
  function Removed(s: seq<Entry>, event: Option<string>, handler: Option<Handler>): seq<Entry>
  {
    match handler
    case None => Dropped(s, event)
    case Some(h) =>
      match LastHit(s, event, h)
      case None => []
      case Some(k) => [s[k]]
  }

  /**
   * Where the backwards walk of `_off` stands once it has visited the indices
   * from `i` up: `list` is what is left of `s` and `removed` what was taken
   * out, most recent first in `s`'s order. With a handler nothing has been
   * taken yet, since the walk stops at its first hit.
   */
  predicate Swept(s: seq<Entry>, i: nat, event: Option<string>, handler: Option<Handler>, list: seq<Entry>, removed: seq<Entry>)
  {
    && i <= |s|
    && match handler
       case None => list == s[..i] + Keep(s[i..], event) && removed == Dropped(s[i..], event)
       case Some(h) => list == s && removed == [] && NoHitFrom(s, i, event, h)
  }

  /** Before the walk nothing is visited, kept apart or taken out. */
  lemma SweptStart(s: seq<Entry>, event: Option<string>, handler: Option<Handler>)
    ensures Swept(s, |s|, event, handler, s, [])
  {
    assert s[|s|..] == [] && s[..|s|] == s;
  }

  /** A walk that reaches the front has computed `Deregister` and `Removed`. */
  lemma SweptDone(s: seq<Entry>, event: Option<string>, handler: Option<Handler>, list: seq<Entry>, removed: seq<Entry>)
    requires Swept(s, 0, event, handler, list, removed)
    ensures list == Deregister(s, event, handler) && removed == Removed(s, event, handler)
  {
    assert s[..0] == [] && s[0..] == s;
    if handler.Some? {
      NoHitAtAll(s, event, handler.value);
    }
  }

  /**
   * Visiting index `i`: the entry there is still `s[i]`; it is spliced out on
   * a match when no handler is given, skipped when it is no hit, and on a hit
   * it is the one entry `_off` removes.
   */
  lemma SweptStep(s: seq<Entry>, i: nat, event: Option<string>, handler: Option<Handler>, list: seq<Entry>, removed: seq<Entry>)
    requires i < |s| && Swept(s, i + 1, event, handler, list, removed)
    ensures i < |list| && list[i] == s[i]
    ensures handler.None? && Matches(s[i], event) ==>
              Swept(s, i, event, handler, list[..i] + list[i + 1..], [s[i]] + removed)
    ensures handler.None? && !Matches(s[i], event) ==> Swept(s, i, event, handler, list, removed)
    ensures handler.Some? && !Hit(s[i], event, handler.value) ==> Swept(s, i, event, handler, list, removed)
    ensures handler.Some? && Hit(s[i], event, handler.value) ==>
              && list[..i] + list[i + 1..] == Deregister(s, event, handler)
              && [s[i]] + removed == Removed(s, event, handler)
  {
    if handler.None? {
      assert s[i..] == [s[i]] + s[i + 1..];
      assert s[..i + 1] == s[..i] + [s[i]];
    } else if Hit(s[i], event, handler.value) {
      NewestAt(s, i, event, handler.value);
    }
  }

  /** A "remove every match" pass keeps exactly the entries that do not match. */
  lemma {:induction false} KeepMembers(s: seq<Entry>, event: Option<string>)
    ensures forall e :: e in Keep(s, event) ==> e in s && !Matches(e, event)
    ensures forall e :: e in s && !Matches(e, event) ==> e in Keep(s, event)
  {
    if s != [] {
      KeepMembers(s[1..], event);
      assert s == [s[0]] + s[1..];
    }
  }

  /** ... and takes out exactly the entries that match. */
  lemma {:induction false} DroppedMembers(s: seq<Entry>, event: Option<string>)
    ensures forall e :: e in Dropped(s, event) ==> e in s && Matches(e, event)
    ensures forall e :: e in s && Matches(e, event) ==> e in Dropped(s, event)
  {
    if s != [] {
      DroppedMembers(s[1..], event);
      assert s == [s[0]] + s[1..];
    }
  }

  /** The native registrations `addEventListener(item[0], item[2])` that stand for a list of entries on one element. */
  function Attached(element: Element, s: seq<Entry>): multiset<Listener>
  {
    if s == [] then multiset{}
    else multiset{Listener(element, s[0].event, s[0].wrapper)} + Attached(element, s[1..])
  }

  /** How many entries pair this event with this handler. */
  function Count(s: seq<Entry>, event: string, handler: Handler): nat
  {
    if s == [] then 0
    else (if s[0].event == event && s[0].handler == handler then 1 else 0) + Count(s[1..], event, handler)
  }

  lemma {:induction false} CountConcat(a: seq<Entry>, b: seq<Entry>, event: string, handler: Handler)
    ensures Count(a + b, event, handler) == Count(a, event, handler) + Count(b, event, handler)
  {
    if a != [] {
      assert (a + b)[1..] == a[1..] + b;
      CountConcat(a[1..], b, event, handler);
    } else {
      assert a + b == b;
    }
  }

  lemma {:induction false} AttachedConcat(element: Element, a: seq<Entry>, b: seq<Entry>)
    ensures Attached(element, a + b) == Attached(element, a) + Attached(element, b)
  {
    if a != [] {
      assert (a + b)[1..] == a[1..] + b;
      AttachedConcat(element, a[1..], b);
    } else {
      assert a + b == b;
    }
  }

  /** Every listener of a list stands for one of its entries. */
  lemma {:induction false} AttachedFrom(element: Element, s: seq<Entry>, l: Listener) returns (i: nat)
    requires l in Attached(element, s)
    ensures i < |s| && l == Listener(element, s[i].event, s[i].wrapper)
  {
    if l == Listener(element, s[0].event, s[0].wrapper) {
      i := 0;
    } else {
      var j := AttachedFrom(element, s[1..], l);
      i := j + 1;
    }
  }

  /** A "remove every match" pass keeps the order: it works entry by entry. */
  lemma {:induction false} KeepConcat(a: seq<Entry>, b: seq<Entry>, event: Option<string>)
    ensures Keep(a + b, event) == Keep(a, event) + Keep(b, event)
  {
    if a != [] {
      assert (a + b)[0] == a[0] && (a + b)[1..] == a[1..] + b;
      KeepConcat(a[1..], b, event);
      var head := if Matches(a[0], event) then [] else [a[0]];
      assert Keep(a + b, event) == head + Keep(a[1..] + b, event);
      assert Keep(a, event) == head + Keep(a[1..], event);
    } else {
      assert a + b == b;
    }
  }

  /** `_off(el)` empties the list. */
  lemma KeepAll(s: seq<Entry>)
    ensures Deregister(s, None, None) == [] && Removed(s, None, None) == Dropped(s, None)
  {
    KeepMembers(s, None);
    if Keep(s, None) != [] {
      assert Keep(s, None)[0] in Keep(s, None);
    }
  }

  /** Removing every match twice is the same as removing it once. */
  lemma {:induction false} KeepIdempotent(s: seq<Entry>, event: Option<string>)
    ensures Keep(Keep(s, event), event) == Keep(s, event)
  {
    if s != [] {
      KeepIdempotent(s[1..], event);
      var head := if Matches(s[0], event) then [] else [s[0]];
      KeepConcat(head, Keep(s[1..], event), event);
      assert Keep(head, event) == head by {
        if head != [] {
          assert head[1..] == [];
        }
      }
    }
  }

  /**
   * `_off(el, ev)` removes every `ev` entry, whatever its handler, and keeps
   * every entry of another event with its multiplicity.
   */
  lemma {:induction false} KeepCount(s: seq<Entry>, ev: string, event: string, handler: Handler)
    ensures ev == event ==> Count(Keep(s, Some(ev)), event, handler) == 0
    ensures ev != event ==> Count(Keep(s, Some(ev)), event, handler) == Count(s, event, handler)
  {
    if s != [] {
      KeepCount(s[1..], ev, event, handler);
      var head := if Matches(s[0], Some(ev)) then [] else [s[0]];
      CountConcat(head, Keep(s[1..], Some(ev)), event, handler);
      if head != [] {
        assert head[1..] == [];
      }
    }
  }

  /**
   * With a handler, `_off` takes out exactly one hit when there is one, so the
   * count of that (event, handler) pair drops by one and every other count stays.
   */
  lemma RemoveOneCount(s: seq<Entry>, i: nat, event: string, handler: Handler, event2: string, handler2: Handler)
    requires i < |s| && s[i].event == event && s[i].handler == handler
    ensures |Deregister(s, Some(event), Some(handler))| == |s| - 1
    ensures Count(Deregister(s, Some(event), Some(handler)), event2, handler2)
            == Count(s, event2, handler2) - (if event2 == event && handler2 == handler then 1 else 0)
  {
    assert Hit(s[i], Some(event), handler);
    var k := LastHit(s, Some(event), handler).value;
    assert s == s[..k] + [s[k]] + s[k + 1..];
    CountConcat(s[..k] + [s[k]], s[k + 1..], event2, handler2);
    CountConcat(s[..k], [s[k]], event2, handler2);
    CountConcat(s[..k], s[k + 1..], event2, handler2);
    assert [s[k]][1..] == [];
  }

  /**
   * `_off` with a handler removes the newest hit, not an older one: of two
   * registrations of the same pair, the second one goes.
   */
  lemma NewestHitGoes(first: Wrapper, second: Wrapper, ev: string, h: Handler)
    ensures Deregister([Entry(ev, h, first), Entry(ev, h, second)], Some(ev), Some(h)) == [Entry(ev, h, first)]
    ensures Removed([Entry(ev, h, first), Entry(ev, h, second)], Some(ev), Some(h)) == [Entry(ev, h, second)]
  {
    var s := [Entry(ev, h, first), Entry(ev, h, second)];
    assert Hit(s[1], Some(ev), h);
  }

  /** Everything `_off` leaves in the list was there before. */
  lemma DeregisterSubset(s: seq<Entry>, event: Option<string>, handler: Option<Handler>)
    ensures forall e :: e in Deregister(s, event, handler) ==> e in s
  {
    if handler.None? {
      KeepMembers(s, event);
    } else if LastHit(s, event, handler.value).Some? {
      var k := LastHit(s, event, handler.value).value;
      assert s == s[..k] + [s[k]] + s[k + 1..];
    }
  }

  /**
   * The pairing of `splice` and `removeEventListener`: the entries left and the
   * entries removed together make up the old list, listener for listener.
   */
  lemma {:induction false} KeepDroppedPartition(element: Element, s: seq<Entry>, event: Option<string>)
    ensures Attached(element, Keep(s, event)) + Attached(element, Dropped(s, event))
            == Attached(element, s)
  {
    if s != [] {
      KeepDroppedPartition(element, s[1..], event);
      var l := Listener(element, s[0].event, s[0].wrapper);
      var keep, dropped := Keep(s[1..], event), Dropped(s[1..], event);
      if Matches(s[0], event) {
        assert Keep(s, event) == keep;
        assert Dropped(s, event) == [s[0]] + dropped;
        assert ([s[0]] + dropped)[1..] == dropped;
        assert Attached(element, Dropped(s, event)) == multiset{l} + Attached(element, dropped);
        AddOne(Attached(element, dropped), Attached(element, keep), Attached(element, s[1..]), l);
      } else {
        assert Dropped(s, event) == dropped;
        assert Keep(s, event) == [s[0]] + keep;
        assert ([s[0]] + keep)[1..] == keep;
        assert Attached(element, Keep(s, event)) == multiset{l} + Attached(element, keep);
        AddOne(Attached(element, keep), Attached(element, dropped), Attached(element, s[1..]), l);
      }
    }
  }

  lemma AddOne<T>(a: multiset<T>, b: multiset<T>, c: multiset<T>, x: T)
    requires a + b == c || b + a == c
    ensures (multiset{x} + a) + b == multiset{x} + c && b + (multiset{x} + a) == multiset{x} + c
  {
  }

  lemma DeregisterPartition(element: Element, s: seq<Entry>, event: Option<string>, handler: Option<Handler>)
    ensures Attached(element, Deregister(s, event, handler))
            + Attached(element, Removed(s, event, handler))
            == Attached(element, s)
  {
    match handler
    case None =>
      KeepDroppedPartition(element, s, event);
    case Some(h) =>
      match LastHit(s, event, h)
      case None =>
      case Some(k) =>
        assert s == s[..k] + [s[k]] + s[k + 1..];
        AttachedConcat(element, s[..k] + [s[k]], s[k + 1..]);
        AttachedConcat(element, s[..k], [s[k]]);
        AttachedConcat(element, s[..k], s[k + 1..]);
  }

  /** The entry's wrapper is the closure `_on` built for this element, event and handler. */
  predicate Fits(e: Entry, element: Element)
  {
    e.wrapper.element == element && e.wrapper.event == e.event && e.wrapper.handler == e.handler
  }

  function ListAt(events: map<nat, seq<Entry>>, k: nat): seq<Entry>
  {
    if k in events then events[k] else []
  }

  /** The native listeners on the element of tag k (none for a tag the ledger does not know). */
  function At(native: map<nat, multiset<Listener>>, k: nat): multiset<Listener>
  {
    if k in native then native[k] else multiset{}
  }

  /** Tag k has an owner and a set of native listeners exactly when it has a list. */
  predicate KeysAt(events: map<nat, seq<Entry>>, owner: map<nat, Element>, native: map<nat, multiset<Listener>>, k: nat)
  {
    (k in owner <==> k in events) && (k in native <==> k in events)
  }

  /** One owner and one set of native listeners per list in the table. */
  ghost predicate SameKeys(events: map<nat, seq<Entry>>, owner: map<nat, Element>, native: map<nat, multiset<Listener>>)
  {
    forall k {:trigger KeysAt(events, owner, native, k)} :: KeysAt(events, owner, native, k)
  }

  /** Every tag in the table was drawn from the counter, which has reached `last`. */
  predicate Drawn(events: map<nat, seq<Entry>>, last: nat)
  {
    forall k :: k in events ==> 1 <= k <= last
  }

  /** The i-th entry in the list of tag k has its wrapper built for the element of k. */
  predicate FitAt(events: map<nat, seq<Entry>>, owner: map<nat, Element>, k: nat, i: nat)
  {
    k in events && i < |events[k]| ==> k in owner && Fits(events[k][i], owner[k])
  }

  /**
   * Every wrapper in a list was built for the element of that list. (The
   * quantifier fires only on `FitAt` terms, which the lemmas below introduce
   * where they need one key.)
   */
  ghost predicate AllFit(events: map<nat, seq<Entry>>, owner: map<nat, Element>)
  {
    forall k, i {:trigger FitAt(events, owner, k, i)} :: FitAt(events, owner, k, i)
  }

  /** The native listeners on the element of tag k are those of the entries in its list. */
  predicate PairedAt(events: map<nat, seq<Entry>>, owner: map<nat, Element>, native: map<nat, multiset<Listener>>, k: nat)
  {
    k in events ==> k in owner && k in native && native[k] == Attached(owner[k], events[k])
  }

  /** On every tagged element, exactly the native listeners of the entries in its list. */
  ghost predicate Paired(events: map<nat, seq<Entry>>, owner: map<nat, Element>, native: map<nat, multiset<Listener>>)
  {
    forall k {:trigger PairedAt(events, owner, native, k)} :: PairedAt(events, owner, native, k)
  }

  /** The table side of the ledger invariant. */
  ghost predicate InStep(events: map<nat, seq<Entry>>, owner: map<nat, Element>, native: map<nat, multiset<Listener>>, last: nat)
  {
    SameKeys(events, owner, native) && Drawn(events, last) && AllFit(events, owner) && Paired(events, owner, native)
  }

  lemma MultisetMinus<T>(a: multiset<T>, b: multiset<T>, c: multiset<T>)
    requires a + c == b
    ensures a == b - c
  {
    assert forall x :: (b - c)[x] == a[x];
  }

  /** `_on`'s push and addEventListener keep the table and the listeners in step. */
  lemma OnStep(events: map<nat, seq<Entry>>, owner: map<nat, Element>, native: map<nat, multiset<Listener>>,
               last: nat, k: nat, last': nat, element: Element, entry: Entry)
    requires InStep(events, owner, native, last)
    requires 1 <= k <= last' && last <= last'
    requires k in owner ==> owner[k] == element
    requires Fits(entry, element)
    ensures InStep(events[k := ListAt(events, k) + [entry]], owner[k := element],
                   native[k := At(native, k) + multiset{Listener(element, entry.event, entry.wrapper)}], last')
  {
    var l := Listener(element, entry.event, entry.wrapper);
    OnKeys(events, owner, native, last, k, last', element, ListAt(events, k) + [entry], At(native, k) + multiset{l});
    OnFits(events, owner, k, element, entry);
    assert KeysAt(events, owner, native, k);
    OnAttached(events, owner, native, k, element, entry);
  }

  lemma OnKeys(events: map<nat, seq<Entry>>, owner: map<nat, Element>, native: map<nat, multiset<Listener>>,
               last: nat, k: nat, last': nat, element: Element, list: seq<Entry>, listeners: multiset<Listener>)
    requires SameKeys(events, owner, native) && Drawn(events, last)
    requires 1 <= k <= last' && last <= last'
    ensures SameKeys(events[k := list], owner[k := element], native[k := listeners])
    ensures Drawn(events[k := list], last')
  {
    var events', owner', native' := events[k := list], owner[k := element], native[k := listeners];
    forall j
      ensures KeysAt(events', owner', native', j)
    {
      assert KeysAt(events, owner, native, j);
    }
  }

  lemma OnFits(events: map<nat, seq<Entry>>, owner: map<nat, Element>, k: nat, element: Element, entry: Entry)
    requires AllFit(events, owner)
    requires k in owner ==> owner[k] == element
    requires Fits(entry, element)
    ensures AllFit(events[k := ListAt(events, k) + [entry]], owner[k := element])
  {
    var events', owner' := events[k := ListAt(events, k) + [entry]], owner[k := element];
    forall j: nat, i: nat
      ensures FitAt(events', owner', j, i)
    {
      assert FitAt(events, owner, j, i);
      if j == k && i < |events'[k]| {
        assert i < |ListAt(events, k)| ==> events'[k][i] == ListAt(events, k)[i];
      }
    }
  }

  lemma OnAttached(events: map<nat, seq<Entry>>, owner: map<nat, Element>, native: map<nat, multiset<Listener>>,
                   k: nat, element: Element, entry: Entry)
    requires Paired(events, owner, native)
    requires k in owner ==> owner[k] == element
    requires k in native ==> k in events
    ensures Paired(events[k := ListAt(events, k) + [entry]], owner[k := element],
                   native[k := At(native, k) + multiset{Listener(element, entry.event, entry.wrapper)}])
  {
    var l := Listener(element, entry.event, entry.wrapper);
    var events', owner', native' := events[k := ListAt(events, k) + [entry]], owner[k := element], native[k := At(native, k) + multiset{l}];
    forall j
      ensures PairedAt(events', owner', native', j)
    {
      assert PairedAt(events, owner, native, j);
      if j == k {
        AttachedConcat(element, ListAt(events, k), [entry]);
        assert [entry][1..] == [];
        assert Attached(element, [entry]) == multiset{l};
        if k in events {
          assert At(native, k) == native[k] == Attached(owner[k], events[k]);
        } else {
          assert At(native, k) == multiset{} == Attached(element, ListAt(events, k));
        }
      } else if j in events' {
        assert native'[j] == native[j] && owner'[j] == owner[j] && events'[j] == events[j];
      }
    }
  }

  /** `_off`'s splices and removeEventListener calls keep the table and the listeners in step. */
  lemma OffStep(events: map<nat, seq<Entry>>, owner: map<nat, Element>, native: map<nat, multiset<Listener>>,
                last: nat, k: nat, element: Element, event: Option<string>, handler: Option<Handler>)
    requires InStep(events, owner, native, last) && k in events && k in owner && owner[k] == element
    ensures InStep(events[k := Deregister(events[k], event, handler)], owner,
                   native[k := At(native, k) - Attached(element, Removed(events[k], event, handler))], last)
  {
    OffKeys(events, owner, native, k, Deregister(events[k], event, handler),
            At(native, k) - Attached(element, Removed(events[k], event, handler)));
    OffFits(events, owner, k, event, handler);
    OffAttached(events, owner, native, k, event, handler);
  }

  lemma OffKeys(events: map<nat, seq<Entry>>, owner: map<nat, Element>, native: map<nat, multiset<Listener>>,
                k: nat, list: seq<Entry>, listeners: multiset<Listener>)
    requires SameKeys(events, owner, native) && k in events
    ensures SameKeys(events[k := list], owner, native[k := listeners])
  {
    var events', native' := events[k := list], native[k := listeners];
    forall j
      ensures KeysAt(events', owner, native', j)
    {
      assert KeysAt(events, owner, native, j);
    }
  }

  lemma OffFits(events: map<nat, seq<Entry>>, owner: map<nat, Element>, k: nat, event: Option<string>, handler: Option<Handler>)
    requires AllFit(events, owner) && k in events
    ensures AllFit(events[k := Deregister(events[k], event, handler)], owner)
  {
    var events' := events[k := Deregister(events[k], event, handler)];
    DeregisterSubset(events[k], event, handler);
    forall j: nat, i: nat
      ensures FitAt(events', owner, j, i)
    {
      assert FitAt(events, owner, j, i);
      if j == k && i < |events'[k]| {
        assert events'[k][i] in events[k];
        var m :| 0 <= m < |events[k]| && events[k][m] == events'[k][i];
        assert FitAt(events, owner, k, m);
      }
    }
  }

  lemma OffAttached(events: map<nat, seq<Entry>>, owner: map<nat, Element>, native: map<nat, multiset<Listener>>,
                    k: nat, event: Option<string>, handler: Option<Handler>)
    requires Paired(events, owner, native) && k in events && k in owner
    ensures Paired(events[k := Deregister(events[k], event, handler)], owner,
                   native[k := At(native, k) - Attached(owner[k], Removed(events[k], event, handler))])
  {
    var s, element := events[k], owner[k];
    var events' := events[k := Deregister(s, event, handler)];
    var native' := native[k := At(native, k) - Attached(element, Removed(s, event, handler))];
    forall j
      ensures PairedAt(events', owner, native', j)
    {
      assert PairedAt(events, owner, native, j);
      if j == k {
        assert native[k] == Attached(element, s);
        DeregisterPartition(element, s, event, handler);
        MultisetMinus(Attached(element, Deregister(s, event, handler)), native[k], Attached(element, Removed(s, event, handler)));
      } else if j in events' {
        assert native'[j] == native[j] && events'[j] == events[j];
      }
    }
  }
}

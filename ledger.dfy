/**
 * `FSVideo.prototype._on` / `_off` (src/fsvideo.js): the `_events` table of
 * one widget, the module-wide id counter that tags elements, and, as ghost
 * state, the native listeners the ledger has added to elements.
 */
module Ledger {
  import opened Wrappers
  import opened Dom
  import opened LedgerSpec

  /** The module-wide `var id = 0`: every instance draws element tags from it. */
  class IdCounter {
    var last: nat

    constructor ()
      ensures last == 0
    {
      last := 0;
    }
  }

  class EventLedger {
    /** `this._events`: tag -> list of `[event, handler, wrapper]`. */
    var events: map<nat, seq<Entry>>
    const ids: IdCounter
    /** The element each tag in the table belongs to. */
    ghost var owner: map<nat, Element>
    /**
     * The native listeners (element, event, wrapper) this ledger has added and
     * not yet removed, by the tag of the element they are on.
     */
    ghost var native: map<nat, multiset<Listener>>

    /**
     * Tags come from the counter and name their element; every entry's wrapper
     * was built for its element; and the native listeners on each element are
     * exactly those of the entries in its list: no entry without a listener, no
     * listener without an entry.
     */
    ghost predicate Valid()
      reads this, ids, owner.Values`fsvideoId
    {
      && InStep(events, owner, native, ids.last)
      && (forall k {:trigger TagHeld(k)} :: TagHeld(k))
    }

    /** The element that owns tag k carries k. */
    ghost predicate TagHeld(k: nat)
      reads this`owner, owner.Values`fsvideoId
    {
      k in owner ==> owner[k].fsvideoId == k
    }

    /**
     * The element's tag, if it has one, was drawn from the counter, and if this
     * ledger knows that tag it belongs to this element (each tag is drawn once).
     */
    ghost predicate Consistent(element: Element)
      reads this, ids, element`fsvideoId
    {
      element.fsvideoId <= ids.last && (element.fsvideoId != 0 && element.fsvideoId in owner ==> owner[element.fsvideoId] == element)
    }

    /** `this._events = {}` */
    constructor (ids: IdCounter)
      ensures Valid() && this.ids == ids && events == map[] && native == map[] && owner == map[]
    {
      this.ids := ids;
      events := map[];
      owner := map[];
      native := map[];
    }

    /**
     * `_on(element, event, handler, once)`: tag the element if it has no tag,
     * append one triple to its list and add the same wrapper natively.
     */
    method On(element: Element, event: string, handler: Handler, once: bool) returns (wrapper: Wrapper)
      requires Valid() && Consistent(element)
      modifies this, ids, element`fsvideoId
      ensures Valid()
      ensures old(element.fsvideoId) != 0 ==> element.fsvideoId == old(element.fsvideoId) && ids.last == old(ids.last)
      ensures old(element.fsvideoId) == 0 ==> element.fsvideoId == old(ids.last) + 1 == ids.last
      ensures fresh(wrapper) && wrapper.element == element && wrapper.event == event
      ensures wrapper.handler == handler && wrapper.once == once
      ensures events == old(events)[element.fsvideoId := ListAt(old(events), element.fsvideoId) + [Entry(event, handler, wrapper)]]
      ensures old(element.fsvideoId) == 0 ==> events[element.fsvideoId] == [Entry(event, handler, wrapper)]
      ensures native == old(native)[element.fsvideoId := At(old(native), element.fsvideoId) + multiset{Listener(element, event, wrapper)}]
      ensures owner == old(owner)[element.fsvideoId := element]
    {
      // the closure is built after the tag in `_on`; neither step looks at the other
      wrapper := new Wrapper(element, event, handler, once);
      if element.fsvideoId == 0 {
        ids.last := ids.last + 1;
        element.fsvideoId := ids.last;
        forall j
          ensures TagHeld(j)
        {
          assert old(TagHeld(j)) && KeysAt(events, owner, native, j);
        }
        assert KeysAt(events, owner, native, ids.last);
      }
      Register(element, Entry(event, handler, wrapper));
    }

    /** `this._events[localId].push([event, handler, wrapper])` and `element.addEventListener(event, wrapper, false)`. */
    method Register(element: Element, entry: Entry)
      requires Valid() && Consistent(element) && element.fsvideoId != 0
      requires Fits(entry, element)
      modifies this
      ensures Valid()
      ensures events == old(events)[element.fsvideoId := ListAt(old(events), element.fsvideoId) + [entry]]
      ensures native == old(native)[element.fsvideoId := At(old(native), element.fsvideoId) + multiset{Listener(element, entry.event, entry.wrapper)}]
      ensures owner == old(owner)[element.fsvideoId := element]
    {
      var localId := element.fsvideoId;
      OnStep(events, owner, native, ids.last, localId, ids.last, element, entry);
      events, owner, native := events[localId := ListAt(events, localId) + [entry]], owner[localId := element],
                               native[localId := At(native, localId) + multiset{Listener(element, entry.event, entry.wrapper)}];
      forall j
        ensures TagHeld(j)
      {
        assert old(TagHeld(j));
      }
    }

    /**
     * `_off(element, event, handler)`: an untagged element is left alone; a tag
     * this instance has no list for makes `events.length` throw a TypeError;
     * otherwise the list is swept from the end.
     */
    method Off(element: Element, event: Option<string>, handler: Option<Handler>) returns (threw: bool)
      requires Valid() && Consistent(element)
      modifies this
      ensures Valid() && owner == old(owner)
      ensures threw <==> element.fsvideoId != 0 && element.fsvideoId !in old(events)
      ensures element.fsvideoId !in old(events) ==> events == old(events) && native == old(native)
      ensures element.fsvideoId in old(events) ==>
                events == old(events)[element.fsvideoId := Deregister(old(events)[element.fsvideoId], event, handler)]
      ensures element.fsvideoId in old(events) ==>
                native == old(native)[element.fsvideoId := At(old(native), element.fsvideoId)
                                        - Attached(element, Removed(old(events)[element.fsvideoId], event, handler))]
    {
      if element.fsvideoId == 0 {
        return false;
      }
      var localId := element.fsvideoId;
      if localId !in events {
        return true;
      }
      Unregister(element, event, handler);
      threw := false;
    }

    /** `_off` on an element whose list this instance holds: the sweep, stored back into the table. */
    method Unregister(element: Element, event: Option<string>, handler: Option<Handler>)
      requires Valid() && Consistent(element) && element.fsvideoId in events
      modifies this
      ensures Valid() && owner == old(owner)
      ensures events == old(events)[element.fsvideoId := Deregister(old(events)[element.fsvideoId], event, handler)]
      ensures native == old(native)[element.fsvideoId := At(old(native), element.fsvideoId)
                                      - Attached(element, Removed(old(events)[element.fsvideoId], event, handler))]
    {
      var localId := element.fsvideoId;
      assert KeysAt(events, owner, native, localId) && 1 <= localId;
      OffStep(events, owner, native, ids.last, localId, element, event, handler);
      ghost var attached := At(native, localId);
      var list, left := Sweep(element, events[localId], attached, event, handler);
      assert left == At(old(native), element.fsvideoId) - Attached(element, Removed(old(events)[element.fsvideoId], event, handler));
      Store(localId, list, left);
    }

    /** Writes the swept list and the element's remaining native listeners back under the tag. */
    method Store(localId: nat, list: seq<Entry>, ghost left: multiset<Listener>)
      modifies this
      ensures events == old(events)[localId := list] && native == old(native)[localId := left]
      ensures owner == old(owner)
    {
      events, native := events[localId := list], native[localId := left];
    }

    /**
     * The loop of `_off`: walk `events` (the element's list) from the end,
     * splice out the matching triples (only the last hit when a handler is
     * given, then `break`) and remove each one's wrapper from the element,
     * whose native listeners are `attached`. `Off` stores both results back
     * into the table.
     */
    static method Sweep(element: Element, events: seq<Entry>, ghost attached: multiset<Listener>,
                        event: Option<string>, handler: Option<Handler>)
      returns (list: seq<Entry>, ghost left: multiset<Listener>)
      ensures list == Deregister(events, event, handler)
      ensures left == attached - Attached(element, Removed(events, event, handler))
    {
      list := events;
      left := attached;
      ghost var removed: seq<Entry> := [];
      SweptStart(events, event, handler);
      assert Attached(element, removed) == multiset{} && attached - multiset{} == attached;
      for i := |list| downto 0
        invariant Swept(events, i, event, handler, list, removed)
        invariant left == attached - Attached(element, removed)
      {
        SweptStep(events, i, event, handler, list, removed);
        var item := list[i];
        if Matches(item, event) {
          var handlerMatches := handler.Some? && item.handler == handler.value;
          if handlerMatches || handler.None? {
            // events.splice(i, 1); element.removeEventListener(item[0], item[2], false)
            list := list[..i] + list[i + 1..];
            left := left - multiset{Listener(element, item.event, item.wrapper)};
            DetachStep(attached, element, item, removed);
            removed := [item] + removed;
          }
          if handlerMatches {
            // the `break` of `_off` ends the walk, and with it the call
            return;
          }
        }
      }
      SweptDone(events, event, handler, list, removed);
    }

    /** `removeEventListener` of one more wrapper, as multiset algebra. */
    static lemma DetachStep(start: multiset<Listener>, element: Element, item: Entry, removed: seq<Entry>)
      ensures start - Attached(element, removed) - multiset{Listener(element, item.event, item.wrapper)}
              == start - Attached(element, [item] + removed)
    {
      AttachedConcat(element, [item], removed);
    }

    /** A native listener this ledger added stems from an entry in the list of its element's tag. */
    lemma Registered(k: nat, l: Listener) returns (i: nat)
      requires Valid() && l in At(native, k)
      ensures k in events && k in owner && owner[k] == l.element && l.element.fsvideoId == k
      ensures i < |events[k]| && events[k][i] == Entry(l.event, l.wrapper.handler, l.wrapper)
      ensures l.wrapper.element == l.element && l.wrapper.event == l.event
    {
      assert KeysAt(events, owner, native, k) && PairedAt(events, owner, native, k);
      i := AttachedFrom(owner[k], events[k], l);
      assert FitAt(events, owner, k, i) && TagHeld(k);
    }

    /** No native listener is left on an element whose list is empty or that was never tagged. */
    lemma NoneLeftOn(element: Element)
      requires Valid()
      requires element.fsvideoId in events ==> events[element.fsvideoId] == []
      ensures forall k, l :: k in native && l in native[k] ==> l.element != element
    {
      forall k, l | k in native && l in native[k]
        ensures l.element != element
      {
        var i := Registered(k, l);
      }
    }

    /**
     * An element that owns a list here carries that list's tag, which the
     * counter has already handed out; a tag past the counter owns nothing.
     */
    lemma Owned(e: Element, k: nat)
      requires Valid()
      ensures e in owner.Values ==> e.fsvideoId in owner && owner[e.fsvideoId] == e && 1 <= e.fsvideoId <= ids.last
      ensures k > ids.last ==> k !in owner
    {
      if e in owner.Values {
        var j :| j in owner && owner[j] == e;
        assert TagHeld(j) && KeysAt(events, owner, native, j);
      }
      assert KeysAt(events, owner, native, k);
    }

    /**
     * Native dispatch of one registered wrapper: the handler runs, and a
     * one-shot wrapper then calls `_off(element, event, handler)`, which takes
     * out the newest entry of that pair (not necessarily its own), so the
     * count of the pair drops by exactly one.
     */
    method Fire(wrapper: Wrapper)
      requires Valid()
      requires Listener(wrapper.element, wrapper.event, wrapper) in At(native, wrapper.element.fsvideoId)
      modifies this
      ensures Valid() && owner == old(owner)
      ensures !wrapper.once ==> events == old(events) && native == old(native)
      ensures wrapper.once ==> wrapper.element.fsvideoId in old(events)
      ensures wrapper.once ==>
                var k := wrapper.element.fsvideoId;
                events == old(events)[k := Deregister(old(events)[k], Some(wrapper.event), Some(wrapper.handler))]
      ensures wrapper.once ==>
                var k := wrapper.element.fsvideoId;
                Count(events[k], wrapper.event, wrapper.handler) + 1 == Count(old(events)[k], wrapper.event, wrapper.handler)
    {
      // handler.call(self, e): what the handler itself does lies outside the ledger
      if wrapper.once {
        var k := wrapper.element.fsvideoId;
        var i := Registered(k, Listener(wrapper.element, wrapper.event, wrapper));
        RemoveOneCount(events[k], i, wrapper.event, wrapper.handler, wrapper.event, wrapper.handler);
        var threw := Off(wrapper.element, Some(wrapper.event), Some(wrapper.handler));
      }
    }
  }
}

/**
 * The FSVideo widget of src/fsvideo.js: `init` builds either a poster image
 * or a video with one `<source>` per path, appends it to the container and
 * registers its listeners through the ledger; `destroy` empties the
 * container, clears the ledger lists of the window and of the element and
 * drops both references.
 */
module Widget {
  import opened Wrappers
  import opened Geometry
  import opened FileExt
  import opened Dom
  import opened LedgerSpec
  import opened Ledger

  /** `imageTypes`: the suffixes that make the first source a poster image. */
  const ImageTypes: seq<string> := ["jpg", "png", "gif"]

  /** `imageTypes.indexOf(fileType) !== -1` for the extension of the first source. */
  predicate IsPoster(path: string)
  {
    GetFileExt(path) in ImageTypes
  }

  /** No allowed suffix holds a '.'. */
  lemma ImageTypesDotFree()
    ensures forall t :: t in ImageTypes ==> '.' !in t
  {
    assert ImageTypes == ["jpg", "png", "gif"];
  }

  /**
   * A path is a poster exactly when it ends in '.' and an allowed suffix, or,
   * having no dot at all, is an allowed suffix itself.
   */
  lemma PosterBySuffix(path: string)
    ensures IsPoster(path) <==> exists t :: t in ImageTypes && (path == t || EndsWith(path, "." + t))
  {
    ImageTypesDotFree();
    var ext := GetFileExt(path);
    if IsPoster(path) {
      ExtIsWord(path, ext);
    }
    forall t | t in ImageTypes && (path == t || EndsWith(path, "." + t))
      ensures IsPoster(path)
    {
      ExtIsWord(path, t);
    }
  }

  /** "a.b.gif" is a poster: only the last piece counts. */
  lemma PosterExample()
    ensures IsPoster("a.b.gif")
  {
    ExtAfterDot("a.b.gif", "gif");
  }

  /** "clip.mp4" is a video. */
  lemma VideoExample()
    ensures !IsPoster("clip.mp4")
  {
    ExtAfterDot("clip.mp4", "mp4");
  }

  /** The bare word "png", with no dot, is its own extension and so a poster. */
  lemma BareWordExample()
    ensures IsPoster("png")
  {
    ExtIsSuffix("png");
  }

  /** `options.loop !== false`, with `options` defaulting to `{}`; `None` is an absent option. */
  predicate Loops(loop: Option<bool>)
  {
    loop != Some(false)
  }

  /** `'video/' + self._getFileExt(item)`: the `type` of the `<source>` built for a path. */
  function MimeType(path: string): string
  {
    "video/" + GetFileExt(path)
  }

  /**
   * The type is "video/" followed by a dot-free suffix of the path, and that
   * suffix follows a '.' whenever the path has one.
   */
  lemma MimeTypeFollowsExt(path: string)
    ensures |MimeType(path)| >= 6 && MimeType(path)[..6] == "video/"
    ensures '.' !in MimeType(path)[6..] && EndsWith(path, MimeType(path)[6..])
    ensures '.' in path ==> EndsWith(path, "." + MimeType(path)[6..])
  {
    ExtIsSuffix(path);
    assert MimeType(path)[6..] == GetFileExt(path);
  }

  /** Two updates of the same key: the second one wins. */
  lemma UpdateTwice<K, V>(m: map<K, V>, k: K, a: V, b: V)
    ensures m[k := a][k := b] == m[k := b]
  {
  }

  /** A triple that `_on(element, event, handler, once)` put into the ledger. */
  predicate Registration(e: Entry, event: string, handler: Handler, once: bool)
  {
    e.event == event && e.handler == handler && e.wrapper.once == once
  }

  /** The list of a poster image: `_on(el, 'load', this._onLoadImgHandler, true)`. */
  predicate PosterList(list: seq<Entry>)
  {
    |list| == 1 && Registration(list[0], "load", LoadImg, true)
  }

  /**
   * The list of a video: the one-shot `loadedmetadata` handler, then the
   * `ended` handler unless looping is switched off.
   */
  predicate VideoList(list: seq<Entry>, loop: Option<bool>)
  {
    && |list| == (if Loops(loop) then 2 else 1)
    && Registration(list[0], "loadedmetadata", LoadedMetaData, true)
    && (Loops(loop) ==> Registration(list[1], "ended", EndHandler, false))
  }

  /** The window's list after `init`: `_on(window, 'resize', debounce(this._resizeHandler, 100))`. */
  predicate WindowList(list: seq<Entry>)
  {
    |list| == 1 && Registration(list[0], "resize", Resize, false)
  }

  /**
   * The element `init` builds, from its fields: an `img` of class
   * "fsvideo-placeholder" showing the first source, or a `video` of class
   * "fsvideo-video" with one `<source>` per path, in order, typed after the
   * path's extension.
   */
  predicate Shaped(el: Element, sources: seq<string>, poster: bool)
    reads el`className, el`src, el`sources, el`children
  {
    && el.children == []
    && (poster ==> el.tag == Img && el.className == "fsvideo-placeholder" && |sources| > 0 && el.src == sources[0] && el.sources == [])
    && (!poster ==>
          && el.tag == Video && el.className == "fsvideo-video" && el.src == [] && |el.sources| == |sources|
          && forall i :: 0 <= i < |sources| ==> el.sources[i] == Source(sources[i], MimeType(sources[i])))
  }

  /** The element's list after `init`: that of a poster, or that of a video. */
  predicate Listening(list: seq<Entry>, poster: bool, loop: Option<bool>)
  {
    if poster then PosterList(list) else VideoList(list, loop)
  }

  /**
   * What the browser reports while `init` runs: `el.complete` and the natural
   * size of the poster image, and `window.innerWidth` / `window.innerHeight`.
   */
  datatype Probe = Probe(complete: bool, naturalWidth: real, naturalHeight: real, windowWidth: real, windowHeight: real)

  /** A complete image has a positive natural size. */
  predicate Measurable(probe: Probe)
  {
    probe.complete ==> probe.naturalWidth > 0.0 && probe.naturalHeight > 0.0
  }

  /** The style `_fitToScreen` gives a complete poster image in the window of the probe. */
  function Fitted(probe: Probe): Option<Layout>
    requires probe.complete && Measurable(probe)
  {
    Some(FitToScreen(probe.naturalWidth, probe.naturalHeight, probe.windowWidth, probe.windowHeight))
  }

  /** The container, if the widget still holds one, as a set of objects. */
  function Present(c: Element?): (s: set<Element>)
    ensures c != null <==> c in s
    ensures forall x :: x in s ==> x == c
  {
    if c == null then {} else {c}
  }

  class FSVideo {
    /** `this._initialized`: set by the first `init` that gets past `sources[0]`, never reset. */
    var initialized: bool
    /** `this._displayPoster` */
    var displayPoster: bool
    /** `this._element`: null before `init` and after `destroy`. */
    var element: Element?
    /** `this._container`: null after `destroy`. */
    var container: Element?
    /** The global `window` the resize handler goes on. */
    const window: Element
    /** `this._events`, with the module-wide counter. */
    const ledger: EventLedger

    /**
     * The widget is in one of three states: fresh (not initialized, nothing
     * registered), live (initialized, element and container present, the
     * element's and the window's lists in the table) or destroyed
     * (initialized, both references dropped).
     */
    ghost predicate Valid()
      reads this, window`fsvideoId, element, container, ledger, ledger.ids, ledger.owner.Values`fsvideoId
    {
      && ledger.Valid()
      && window.tag == Window && ledger.Consistent(window)
      && (container != null ==> container.tag != Window)
      && (!initialized ==> element == null && container != null && ledger.events == map[])
      && (initialized ==> (element == null <==> container == null))
      && (element != null ==>
            && element != container
            && element.tag == (if displayPoster then Img else Video)
            && ledger.Consistent(element)
            && element.fsvideoId in ledger.events
            && window.fsvideoId in ledger.events)
    }

    /**
     * `new FSVideo(selector)`: not initialized, an empty table, and the
     * container the selector resolved to (the body when it found nothing).
     */
    constructor (container: Element, window: Element, ids: IdCounter)
      requires container.tag != Window && window.tag == Window && window.fsvideoId <= ids.last
      ensures Valid() && !initialized && element == null
      ensures this.container == container && this.window == window && ledger.ids == ids
      // `this._events = {}`: a table of its own
      ensures fresh(ledger)
    {
      initialized := false;
      displayPoster := false;
      element := null;
      this.container := container;
      this.window := window;
      ledger := new EventLedger(ids);
    }

    /**
     * `_preparePoster(sources)`: an `img` showing the first source, with a
     * one-shot `load` listener.
     */
    method PreparePoster(sources: seq<string>) returns (el: Element)
      requires ledger.Valid() && |sources| > 0
      modifies ledger, ledger.ids
      ensures fresh(el) && el.tag == Img && el.className == "fsvideo-placeholder" && el.src == sources[0]
      ensures el.sources == [] && el.children == [] && el.style == None
      ensures ledger.Valid()
      ensures el.fsvideoId == ledger.ids.last == old(ledger.ids.last) + 1
      ensures el.fsvideoId !in old(ledger.events) && el.fsvideoId in ledger.events
      ensures PosterList(ledger.events[el.fsvideoId])
      ensures ledger.events == old(ledger.events)[el.fsvideoId := ledger.events[el.fsvideoId]]
      ensures ledger.owner == old(ledger.owner)[el.fsvideoId := el]
    {
      el := new Element(Img, "fsvideo-placeholder", sources[0], []);
      var w := ledger.On(el, "load", LoadImg, true);
    }

    /**
     * `_prepareVideo(sources, options)`: a `video` with a one-shot
     * `loadedmetadata` listener, one `<source>` per path in order, and an
     * `ended` listener unless `options.loop` is `false`.
     */
    method PrepareVideo(sources: seq<string>, loop: Option<bool>) returns (el: Element)
      requires ledger.Valid()
      modifies ledger, ledger.ids
      ensures fresh(el) && el.tag == Video && el.className == "fsvideo-video" && el.src == []
      ensures |el.sources| == |sources|
      ensures forall i :: 0 <= i < |sources| ==> el.sources[i] == Source(sources[i], MimeType(sources[i]))
      ensures el.children == [] && el.style == None
      ensures ledger.Valid()
      ensures el.fsvideoId == ledger.ids.last == old(ledger.ids.last) + 1
      ensures el.fsvideoId !in old(ledger.events) && el.fsvideoId in ledger.events
      ensures VideoList(ledger.events[el.fsvideoId], loop)
      ensures ledger.events == old(ledger.events)[el.fsvideoId := ledger.events[el.fsvideoId]]
      ensures ledger.owner == old(ledger.owner)[el.fsvideoId := el]
    {
      ghost var before := ledger.events;
      el := NewVideo(sources);
      ghost var middle := ledger.events;
      ListenEnded(el, loop);
      UpdateTwice(before, el.fsvideoId, middle[el.fsvideoId], ledger.events[el.fsvideoId]);
    }

    /**
     * The first half of `_prepareVideo`: the `video` element, its one-shot
     * `loadedmetadata` listener and its `<source>` children (built before the
     * listener here; `_on` does not look at them).
     */
    method NewVideo(sources: seq<string>) returns (el: Element)
      requires ledger.Valid()
      modifies ledger, ledger.ids
      ensures fresh(el) && el.tag == Video && el.className == "fsvideo-video" && el.src == []
      ensures |el.sources| == |sources|
      ensures forall i :: 0 <= i < |sources| ==> el.sources[i] == Source(sources[i], MimeType(sources[i]))
      ensures el.children == [] && el.style == None
      ensures ledger.Valid()
      ensures el.fsvideoId == ledger.ids.last == old(ledger.ids.last) + 1
      ensures el.fsvideoId !in old(ledger.events) && el.fsvideoId in ledger.events
      ensures |ledger.events[el.fsvideoId]| == 1
      ensures Registration(ledger.events[el.fsvideoId][0], "loadedmetadata", LoadedMetaData, true)
      ensures ledger.events == old(ledger.events)[el.fsvideoId := ledger.events[el.fsvideoId]]
      ensures ledger.owner == old(ledger.owner)[el.fsvideoId := el]
    {
      var list := SourceElements(sources);
      el := new Element(Video, "fsvideo-video", [], list);
      var w := ledger.On(el, "loadedmetadata", LoadedMetaData, true);
    }

    /**
     * The second half of `_prepareVideo`: unless `options.loop` is `false`, one
     * more triple, for `ended`, at the end of the video's list.
     */
    method ListenEnded(el: Element, loop: Option<bool>)
      requires ledger.Valid() && ledger.Consistent(el) && el.fsvideoId in ledger.events
      modifies ledger, ledger.ids, el`fsvideoId
      ensures ledger.Valid() && el.fsvideoId == old(el.fsvideoId) && ledger.ids.last == old(ledger.ids.last)
      ensures ledger.owner == old(ledger.owner) && el.fsvideoId in ledger.events
      ensures ledger.events == old(ledger.events)[el.fsvideoId := ledger.events[el.fsvideoId]]
      ensures !Loops(loop) ==> ledger.events == old(ledger.events)
      ensures Loops(loop) ==>
                var list := old(ledger.events)[el.fsvideoId];
                && |ledger.events[el.fsvideoId]| == |list| + 1 && ledger.events[el.fsvideoId][..|list|] == list
                && Registration(ledger.events[el.fsvideoId][|list|], "ended", EndHandler, false)
    {
      if Loops(loop) {
        assert KeysAt(ledger.events, ledger.owner, ledger.native, el.fsvideoId);
        var w := ledger.On(el, "ended", EndHandler, false);
      }
    }

    /**
     * `sources.forEach(...)` in `_prepareVideo`: one `<source>` per path, in
     * order, typed after the path's extension.
     */
    static method SourceElements(sources: seq<string>) returns (list: seq<Source>)
      ensures |list| == |sources|
      ensures forall i :: 0 <= i < |sources| ==> list[i] == Source(sources[i], MimeType(sources[i]))
    {
      list := [];
      for i := 0 to |sources|
        invariant |list| == i
        invariant forall j :: 0 <= j < i ==> list[j] == Source(sources[j], MimeType(sources[j]))
      {
        list := list + [Source(sources[i], MimeType(sources[i]))];
      }
    }

    /**
     * `_onLoadImgHandler()`: once the image is complete, fit it to the window;
     * before that, nothing happens.
     */
    method OnLoadImgHandler(probe: Probe)
      requires element != null && Measurable(probe)
      modifies element`style
      ensures probe.complete ==>
                element.style == Some(FitToScreen(probe.naturalWidth, probe.naturalHeight, probe.windowWidth, probe.windowHeight))
      ensures !probe.complete ==> element.style == old(element.style)
    {
      if probe.complete {
        element.style := Some(FitToScreen(probe.naturalWidth, probe.naturalHeight, probe.windowWidth, probe.windowHeight));
      }
    }

    /**
     * `init(sources, options)`: a second call does nothing; an empty source
     * list throws at `sources[0]` before anything changes; otherwise the
     * widget mounts its element.
     */
    method Init(sources: seq<string>, loop: Option<bool>, probe: Probe) returns (threw: bool)
      requires Valid() && Measurable(probe)
      modifies this, ledger, ledger.ids, Present(container)`children, window`fsvideoId
      ensures Valid()
      // `_on` keeps the tag of a window that already has one
      ensures old(window.fsvideoId) != 0 ==> window.fsvideoId == old(window.fsvideoId)
      ensures old(initialized) ==> !threw && initialized
      ensures !old(initialized) && sources == [] ==> threw && !initialized
      // both early returns leave everything as it was
      ensures old(initialized) || sources == [] ==>
                && element == old(element) && displayPoster == old(displayPoster)
                && container == old(container) && (container != null ==> container.children == old(container.children))
                && ledger.ids.last == old(ledger.ids.last) && window.fsvideoId == old(window.fsvideoId)
                && ledger.events == old(ledger.events) && ledger.native == old(ledger.native) && ledger.owner == old(ledger.owner)
      ensures !old(initialized) && sources != [] ==>
                && !threw && initialized && displayPoster == IsPoster(sources[0])
                && element != null && fresh(element) && container == old(container)
                && element.fsvideoId == old(ledger.ids.last) + 1
                && (old(window.fsvideoId) == 0 ==> window.fsvideoId == old(ledger.ids.last) + 2)
                && ledger.ids.last == old(ledger.ids.last) + (if old(window.fsvideoId) == 0 then 2 else 1)
                && container.children == old(container.children) + [element]
                && Shaped(element, sources, displayPoster)
                && element.style == (if displayPoster && probe.complete then Fitted(probe) else None)
                && ledger.events.Keys == {element.fsvideoId, window.fsvideoId}
                && Listening(ledger.events[element.fsvideoId], displayPoster, loop)
                && WindowList(ledger.events[window.fsvideoId])
    {
      if initialized {
        return false;
      }
      if sources == [] {
        // `this._getFileExt(undefined)` throws a TypeError
        return true;
      }
      Mount(sources, loop, probe);
      threw := false;
    }

    /**
     * The body of a first `init` past `sources[0]`: the first source's
     * extension picks poster or video, the element goes into the container, a
     * complete poster is fitted at once, the window gets its resize listener,
     * and the widget is marked initialized.
     */
    method Mount(sources: seq<string>, loop: Option<bool>, probe: Probe)
      requires Valid() && !initialized && sources != [] && Measurable(probe)
      modifies this, ledger, ledger.ids, container`children, window`fsvideoId
      ensures Valid()
      ensures old(window.fsvideoId) != 0 ==> window.fsvideoId == old(window.fsvideoId)
      ensures initialized && displayPoster == IsPoster(sources[0])
      ensures element != null && fresh(element) && container == old(container)
      ensures element.fsvideoId == old(ledger.ids.last) + 1
      ensures old(window.fsvideoId) == 0 ==> window.fsvideoId == old(ledger.ids.last) + 2
      ensures ledger.ids.last == old(ledger.ids.last) + (if old(window.fsvideoId) == 0 then 2 else 1)
      ensures container.children == old(container.children) + [element]
      ensures Shaped(element, sources, displayPoster)
      ensures element.style == (if displayPoster && probe.complete then Fitted(probe) else None)
      ensures ledger.events.Keys == {element.fsvideoId, window.fsvideoId}
      ensures Listening(ledger.events[element.fsvideoId], displayPoster, loop)
      ensures WindowList(ledger.events[window.fsvideoId])
    {
      var c: Element := container;
      var poster, el := Listen(sources, loop);
      Show(c, el, poster, probe);
    }

    /**
     * The ledger's side of a first `init`: the element that `_preparePoster`
     * or `_prepareVideo` builds with its listeners, then the window's resize
     * listener (registered last in `init`; nothing in between reads the table).
     */
    method Listen(sources: seq<string>, loop: Option<bool>) returns (poster: bool, el: Element)
      requires ledger.Valid() && ledger.Consistent(window) && ledger.events == map[] && sources != []
      modifies ledger, ledger.ids, window`fsvideoId
      ensures ledger.Valid() && ledger.Consistent(window) && ledger.Consistent(el)
      ensures old(window.fsvideoId) != 0 ==> window.fsvideoId == old(window.fsvideoId)
      // `id++` once for the element, and once more for a window seen for the first time
      ensures el.fsvideoId == old(ledger.ids.last) + 1
      ensures old(window.fsvideoId) == 0 ==> window.fsvideoId == old(ledger.ids.last) + 2
      ensures ledger.ids.last == old(ledger.ids.last) + (if old(window.fsvideoId) == 0 then 2 else 1)
      ensures poster == IsPoster(sources[0])
      ensures fresh(el) && el.style == None && Shaped(el, sources, poster)
      ensures ledger.events.Keys == {el.fsvideoId, window.fsvideoId}
      ensures Listening(ledger.events[el.fsvideoId], poster, loop)
      ensures WindowList(ledger.events[window.fsvideoId])
    {
      poster, el := Prepare(sources, loop);
      ListenResize();
    }

    /** `this._on(window, 'resize', debounce(this._resizeHandler, 100))`, on a window with no list here yet. */
    method ListenResize()
      requires ledger.Valid() && ledger.Consistent(window) && window.fsvideoId !in ledger.events
      modifies ledger, ledger.ids, window`fsvideoId
      ensures ledger.Valid() && ledger.Consistent(window) && old(ledger.ids.last) <= ledger.ids.last
      ensures old(window.fsvideoId) != 0 ==> window.fsvideoId == old(window.fsvideoId) && ledger.ids.last == old(ledger.ids.last)
      ensures old(window.fsvideoId) == 0 ==> window.fsvideoId == ledger.ids.last == old(ledger.ids.last) + 1
      ensures window.fsvideoId in ledger.events
      ensures ledger.events == old(ledger.events)[window.fsvideoId := ledger.events[window.fsvideoId]]
      ensures WindowList(ledger.events[window.fsvideoId])
      ensures ledger.owner == old(ledger.owner)[window.fsvideoId := window]
    {
      var w := ledger.On(window, "resize", Resize, false);
    }

    /**
     * The widget's own side of `init`: `this._element = el`,
     * `this._container.appendChild(el)`, the direct call of the poster
     * handler, and `this._initialized = true`.
     */
    method Show(c: Element, el: Element, poster: bool, probe: Probe)
      requires c != el && Measurable(probe)
      modifies this, c`children, el`style
      ensures element == el && displayPoster == poster && initialized && container == old(container)
      ensures c.children == old(c.children) + [el]
      ensures el.style == if poster && probe.complete then Fitted(probe) else old(el.style)
    {
      element, displayPoster := el, poster;
      c.children := c.children + [el];
      if poster {
        OnLoadImgHandler(probe);
      }
      initialized := true;
    }

    /**
     * `displayPoster ? this._preparePoster(sources) : this._prepareVideo(sources, options)`,
     * with `displayPoster` computed from the first source's extension.
     */
    method Prepare(sources: seq<string>, loop: Option<bool>) returns (poster: bool, el: Element)
      requires ledger.Valid() && sources != []
      modifies ledger, ledger.ids
      ensures poster == IsPoster(sources[0])
      ensures fresh(el) && el.style == None && Shaped(el, sources, poster)
      ensures ledger.Valid()
      ensures el.fsvideoId == ledger.ids.last == old(ledger.ids.last) + 1
      ensures el.fsvideoId !in old(ledger.events) && el.fsvideoId in ledger.events
      ensures ledger.events == old(ledger.events)[el.fsvideoId := ledger.events[el.fsvideoId]]
      ensures ledger.owner == old(ledger.owner)[el.fsvideoId := el]
      ensures Listening(ledger.events[el.fsvideoId], poster, loop)
    {
      poster := IsPoster(sources[0]);
      if poster {
        el := PreparePoster(sources);
      } else {
        el := PrepareVideo(sources, loop);
      }
    }

    /**
     * `destroy()`: with no container (a second `destroy`) `c.children` throws;
     * otherwise the container is emptied from the last child down. A widget
     * that was never initialized then throws: `_off(window)` finds the table
     * empty (it returns, or throws if another instance tagged the window), and
     * `_off(undefined)` reads a field of `undefined`. A live widget clears the
     * window's and the element's lists and drops both references.
     */
    method Destroy() returns (threw: bool)
      requires Valid()
      modifies this, ledger, Present(container)`children
      ensures Valid() && initialized == old(initialized)
      ensures old(container) == null ==> threw && element == old(element) && container == null
      ensures old(container) != null ==> old(container).children == []
      ensures old(container) != null && old(element) == null ==> threw && element == null && container == old(container)
      // both throwing paths leave the widget's fields and the ledger as they were
      ensures old(container) == null || old(element) == null ==>
                && displayPoster == old(displayPoster)
                && ledger.events == old(ledger.events) && ledger.native == old(ledger.native) && ledger.owner == old(ledger.owner)
      ensures old(element) != null ==>
                && !threw && element == null && container == null
                && displayPoster == old(displayPoster) && ledger.owner == old(ledger.owner)
                && ledger.events == old(ledger.events)[window.fsvideoId := []][old(element).fsvideoId := []]
                && ledger.native == old(ledger.native)[window.fsvideoId := multiset{}][old(element).fsvideoId := multiset{}]
                && (forall k, l :: k in ledger.native && l in ledger.native[k] ==> l.element != window && l.element != old(element))
    {
      var c: Element? := container;
      if c == null {
        // `c.children` on null throws a TypeError
        return true;
      }
      RemoveChildren(c);
      if element == null {
        threw := ledger.Off(window, None, None);
        // `_off(undefined)` reads `undefined.fsvideoId`, if `_off(window)` has not thrown already
        return true;
      }
      Unmount();
      threw := false;
    }

    /** The loop of `destroy`: `c.removeChild(children[i])` from the last child down to the first. */
    static method RemoveChildren(c: Element)
      modifies c`children
      ensures c.children == []
    {
      for i := |c.children| downto 0
        invariant c.children == old(c.children)[..i]
      {
        c.children := c.children[..i] + c.children[i + 1..];
      }
    }

    /**
     * The rest of `destroy` on a live widget: `_off(window)` and
     * `_off(this._element)` empty both lists and take every native listener
     * off both elements, then both references are dropped.
     */
    method Unmount()
      requires Valid() && element != null
      modifies this, ledger
      ensures Valid() && initialized == old(initialized) && element == null && container == null
      ensures displayPoster == old(displayPoster) && ledger.owner == old(ledger.owner)
      ensures ledger.events == old(ledger.events)[window.fsvideoId := []][old(element).fsvideoId := []]
      ensures ledger.native == old(ledger.native)[window.fsvideoId := multiset{}][old(element).fsvideoId := multiset{}]
      ensures forall k, l :: k in ledger.native && l in ledger.native[k] ==> l.element != window && l.element != old(element)
    {
      var el: Element := element;
      Clear(window);
      Clear(el);
      ledger.NoneLeftOn(window);
      ledger.NoneLeftOn(el);
      container, element := null, null;
    }

    /** `_off(e)` on an element whose list this instance holds: the list becomes empty. */
    method Clear(e: Element)
      requires ledger.Valid() && ledger.Consistent(e) && e.fsvideoId in ledger.events
      modifies ledger
      ensures ledger.Valid() && ledger.owner == old(ledger.owner)
      ensures ledger.events == old(ledger.events)[e.fsvideoId := []]
      ensures ledger.native == old(ledger.native)[e.fsvideoId := multiset{}]
    {
      KeepAll(ledger.events[e.fsvideoId]);
      var threw := ledger.Off(e, None, None);
      assert PairedAt(ledger.events, ledger.owner, ledger.native, e.fsvideoId);
    }
  }

  /**
   * Two `init` calls on a widget over an empty container leave exactly one
   * child in it, in the mode the first source picks.
   */
  method InitTwice(w: FSVideo, sources: seq<string>, loop: Option<bool>, probe: Probe)
    requires w.Valid() && !w.initialized && Measurable(probe) && sources != []
    requires w.container != null && w.container.children == []
    modifies w, w.ledger, w.ledger.ids, w.container`children, w.window`fsvideoId
    ensures w.container != null && |w.container.children| == 1
    ensures w.initialized && w.displayPoster == IsPoster(sources[0])
  {
    var threw := w.Init(sources, loop, probe);
    threw := w.Init(sources, loop, probe);
  }

  /**
   * Two widgets built one after the other draw tags from the same counter but
   * keep tables of their own.
   */
  method TwoWidgets(c1: Element, c2: Element, window: Element, ids: IdCounter) returns (w1: FSVideo, w2: FSVideo)
    requires c1.tag != Window && c2.tag != Window && window.tag == Window && window.fsvideoId <= ids.last
    ensures w1.Valid() && w2.Valid() && !w1.initialized && !w2.initialized
    ensures w1.ledger != w2.ledger && w1.ledger.ids == w2.ledger.ids == ids
  {
    w1 := new FSVideo(c1, window, ids);
    w2 := new FSVideo(c2, window, ids);
  }

  /**
   * One widget's first `init` next to a live sibling over the same counter:
   * the sibling's table is untouched, it stays valid, and the new element's tag
   * is not the sibling element's, since the counter only grows.
   */
  method SiblingInit(w1: FSVideo, w2: FSVideo, sources: seq<string>, loop: Option<bool>, probe: Probe)
    requires w1.Valid() && w2.Valid() && w1.ledger != w2.ledger && w1.ledger.ids == w2.ledger.ids
    requires !w1.initialized && sources != [] && Measurable(probe)
    modifies w1, w1.ledger, w1.ledger.ids, Present(w1.container)`children, w1.window`fsvideoId
    ensures w2.ledger.events == old(w2.ledger.events) && w2.Valid()
    ensures w1.element != null && (w2.element != null ==> w1.element.fsvideoId != w2.element.fsvideoId)
  {
    ghost var last := w1.ledger.ids.last;
    w2.ledger.Owned(w1.window, last + 2);
    var threw := w1.Init(sources, loop, probe);
    assert w2.ledger.Consistent(w2.window);
  }
}

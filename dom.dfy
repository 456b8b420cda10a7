/**
 * The few browser objects the widget touches, abstracted: an event target
 * (the window or an element) with the `fsvideoId` tag the ledger writes, the
 * attributes the widget sets, the `<source>` children of a video as records,
 * the child list of a container, and the style the fit writes.
 */
module Dom {
  import opened Wrappers
  import opened Geometry

  datatype Tag = Window | Div | Body | Img | Video

  /** A `<source>` child of a video element: its `src` and its `type`. */
  datatype Source = Source(src: string, mime: string)

  class Element {
    const tag: Tag
    /** `element.fsvideoId`; 0 stands for "not set" (JavaScript `undefined`). */
    var fsvideoId: nat
    var className: string
    var src: string
    var sources: seq<Source>
    var children: seq<Element>
    /** The layout last written into `element.style`, if any. */
    var style: Option<Layout>

    /**
     * `document.createElement(tag)` with the `className`, the `src` (of an
     * image) and the `<source>` children (of a video) the widget gives it.
     */
    constructor (tag: Tag, className: string, src: string, sources: seq<Source>)
      ensures this.tag == tag && fsvideoId == 0
      ensures this.className == className && this.src == src && this.sources == sources
      ensures children == [] && style == None
    {
      this.tag := tag;
      fsvideoId := 0;
      this.className := className;
      this.src := src;
      this.sources := sources;
      children := [];
      style := None;
    }
  }
}

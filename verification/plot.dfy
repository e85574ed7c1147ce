/**
 * The plot: a configuration fixed when it is created and a display list that
 * grows, one element at a time, at its end.
 */
module Plotting {
  import opened Wrappers
  import opened TextFormat
  import opened Elements
  import opened Encoder

  /** The options a plot is created with; absent entries take their defaults. */
  datatype PlotOptions = PlotOptions(width: Option<int>, height: Option<int>,
                                     fillColor1: Option<string>, fillColor2: Option<string>,
                                     angle: Option<int>)

  const NoPlotOptions := PlotOptions(None, None, None, None, None)

  const DefaultExtent := 300
  const DefaultFill := "ffffff"

  class Plot {
    const width: int
    const height: int
    const fillColor1: string
    const fillColor2: Option<string>
    const angle: int
    /** The display list: elements are drawn in the order they were added. */
    var elements: seq<Element>

    /** Both extents are positive, so the coordinate maps are defined. */
    ghost predicate Valid()
      reads this
    {
      width > 0 && height > 0
    }

    /**
     * `Plot.new(opts)`: 300 by 300 pixels, a white background without gradient
     * and angle 0 unless the options say otherwise; the display list starts empty.
     */
    constructor (opts: PlotOptions)
      requires opts.width.GetOr(DefaultExtent) > 0 && opts.height.GetOr(DefaultExtent) > 0
      ensures Valid()
      ensures width == opts.width.GetOr(DefaultExtent) && height == opts.height.GetOr(DefaultExtent)
      ensures fillColor1 == opts.fillColor1.GetOr(DefaultFill) && fillColor2 == opts.fillColor2
      ensures angle == opts.angle.GetOr(0)
      ensures elements == []
    {
      width := opts.width.GetOr(DefaultExtent);
      height := opts.height.GetOr(DefaultExtent);
      elements := [];
      fillColor1 := opts.fillColor1.GetOr(DefaultFill);
      fillColor2 := opts.fillColor2;
      angle := opts.angle.GetOr(0);
    }

    /**
     * `add_element`: the element goes at the end of the display list, so it is
     * drawn on top; earlier elements keep their places, and it joins the shapes
     * or the labels according to its kind.
     */
    method AddElement(e: Element)
      requires Valid()
      modifies this
      ensures Valid()
      ensures elements == old(elements) + [e]
      ensures ShapeElements(elements) == ShapeElements(old(elements)) + (if e.Shape? then [e] else [])
      ensures TextElements(elements) == TextElements(old(elements)) + (if e.Text? then [e] else [])
    {
      ShapeElementsAppend(elements, e);
      TextElementsAppend(elements, e);
      elements := elements + [e];
    }

    /** Everything the encoder reads of this plot. */
    function Value(): (v: PlotValue)
      reads this
      ensures v.elements == elements && (Valid() ==> ValidPlot(v))
    {
      PlotValue(width, height, fillColor1, fillColor2, angle, elements)
    }

    /**
     * `generate_uri`. When the plot's colours and escaped labels hold no `&`,
     * the query string splits back into its parameters in their fixed order.
     */
    function GenerateUri(percentEncode: string -> string): (r: string)
      reads this
      requires Valid()
      ensures PlotAvoids(Value(), percentEncode, '&') ==> Split(r, '&') == UriFields(Value(), percentEncode)
    {
      var v := Value();
      assert PlotAvoids(v, percentEncode, '&') ==> Split(Uri(v, percentEncode), '&') == UriFields(v, percentEncode) by {
        if PlotAvoids(v, percentEncode, '&') {
          UriReadBack(v, percentEncode);
        }
      }
      Uri(v, percentEncode)
    }

    /**
     * `generate_img_uri`. When the plot's colours and escaped labels hold no
     * double quote, the query string is the `src` attribute's value.
     */
    function GenerateImgUri(percentEncode: string -> string): (r: string)
      reads this
      requires Valid()
      ensures PlotAvoids(Value(), percentEncode, '"') ==>
                |Split(r, '"')| == 7 && Split(r, '"')[1] == GenerateUri(percentEncode)
    {
      var v := Value();
      assert PlotAvoids(v, percentEncode, '"') ==>
               |Split(ImgUri(v, percentEncode), '"')| == 7 && Split(ImgUri(v, percentEncode), '"')[1] == Uri(v, percentEncode) by {
        if PlotAvoids(v, percentEncode, '"') {
          ImgUriReadBack(v, percentEncode);
        }
      }
      ImgUri(v, percentEncode)
    }
  }
}

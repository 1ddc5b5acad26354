/**
 The overlay one detection cycle paints on the canvas that lies over the video:
 the canvas is an abstract list of drawing commands, and each detected face
 adds its bounding box, a filled label tag just above the box, and the label
 text inside the tag.
 */
module Overlay {
  import opened Ranking

  /** A face's bounding box in video pixel coordinates, as the detector reports it. */
  datatype Box = Box(x: real, y: real, width: real, height: real)

  /** One detected face: its box and its expression scores in the detector's entry order. */
  datatype Detection = Detection(box: Box, expressions: seq<Entry>)

  /**
   The text `"<expression> (<confidence * 100 to one decimal>%)"`. The number
   formatting is not modelled: the text is kept as its two ingredients.
   */
  datatype LabelText = LabelText(expression: string, confidence: real)

  /**
   The font the 2D context holds: the default `10px sans-serif` it returns to
   whenever the canvas is resized, or the `16px Arial` the label text is drawn in.
   */
  datatype Font = CanvasDefault | Arial16

  /** The drawing commands the overlay issues. */
  datatype Op =
    | ClearRect(x: real, y: real, w: real, h: real)
    | StrokeRect(x: real, y: real, w: real, h: real, color: string, lineWidth: real)
    | FillRect(x: real, y: real, w: real, h: real, color: string)
    | FillText(text: LabelText, x: real, y: real, font: Font, color: string)

  /** The canvas: its pixel size and the commands painted since it was last resized. */
  datatype Canvas = Canvas(width: nat, height: nat, ops: seq<Op>)

  /** Text measurement of the 2D context, left abstract: the width of a text in a font. */
  type Measure = (Font, LabelText) -> real

  const BoxColor: string := "lime"
  const BoxLineWidth: real := 3.0
  const TagColor: string := "lime"
  const TextColor: string := "black"
  /** Height of the label tag. */
  const TagHeight: real := 20.0
  /** The tag is this much wider than the measured text. */
  const TagPadding: real := 10.0
  /** Offset of the text anchor from the tag's left edge and from the box's top edge. */
  const TextInset: real := 5.0

  /** A face can be labelled only when it has at least one expression score. */
  predicate Labelled(d: Detection)
  {
    |d.expressions| > 0
  }

  /** The label of a face: its top-ranked expression and that expression's score. */
  function Label(d: Detection): (t: LabelText)
    requires Labelled(d)
    ensures exists k :: 0 <= k < |d.expressions| && d.expressions[k] == Entry(t.expression, t.confidence)
    ensures forall k :: 0 <= k < |d.expressions| ==> d.expressions[k].score <= t.confidence
    ensures Entry(t.expression, t.confidence) == d.expressions[FirstMaxIndex(d.expressions)]
  {
    var e := Top(d.expressions);
    LabelText(e.expression, e.score)
  }

  /**
   Number of faces painted before the loop stops: the loop over the faces
   throws when a face has no expression scores, so only the labelled prefix is painted.
   */
  function DrawnCount(ds: seq<Detection>): (n: nat)
    ensures n <= |ds|
    ensures forall i :: 0 <= i < n ==> Labelled(ds[i])
    ensures n < |ds| ==> !Labelled(ds[n])
  {
    if |ds| == 0 || !Labelled(ds[0]) then 0 else 1 + DrawnCount(ds[1..])
  }

  /** Every face is labelled, so the loop over the faces runs to the end. */
  predicate AllLabelled(ds: seq<Detection>)
  {
    forall i :: 0 <= i < |ds| ==> Labelled(ds[i])
  }

  /** The loop over the faces paints every face exactly when every face is labelled. */
  lemma {:induction false} AllDrawn(ds: seq<Detection>)
    ensures DrawnCount(ds) == |ds| <==> AllLabelled(ds)
  {
  }

  /** A face ready to be painted: its box and its label. */
  datatype Face = Face(box: Box, text: LabelText)

  /** The faces the loop gets to paint, each with the label it works out for it. */
  function Faces(ds: seq<Detection>): (fs: seq<Face>)
    ensures |fs| == DrawnCount(ds)
    ensures forall i :: 0 <= i < |fs| ==> fs[i] == Face(ds[i].box, Label(ds[i]))
  {
    seq(DrawnCount(ds), i requires 0 <= i < DrawnCount(ds) => Face(ds[i].box, Label(ds[i])))
  }

  /**
   The three commands painted for one face: the box outline, the tag above
   it, whose width is the label's width measured in `font` plus padding, and
   the label text in 16px Arial.
   */
  function Mark(f: Face, font: Font, measure: Measure): (r: seq<Op>)
    ensures |r| == 3
  {
    var b := f.box;
    [ StrokeRect(b.x, b.y, b.width, b.height, BoxColor, BoxLineWidth),
      FillRect(b.x, b.y - TagHeight, measure(font, f.text) + TagPadding, TagHeight, TagColor),
      FillText(f.text, b.x + TextInset, b.y - TextInset, Arial16, TextColor) ]
  }

  /**
   The font the context holds when the `i`-th face's label is measured, if it
   held `font` before the first face: from the second face on it is the 16px
   Arial the previous face's text left behind.
   */
  function FontAt(i: nat, font: Font): Font
  {
    if i == 0 then font else Arial16
  }

  /**
   The commands the loop paints for the faces `fs`, starting with the
   context's font set to `font`: three per face, in order.
   */
  function Marks(fs: seq<Face>, font: Font, measure: Measure): (r: seq<Op>)
    ensures |r| == 3 * |fs|
  {
    if |fs| == 0 then []
    else Mark(fs[0], font, measure) + Marks(fs[1..], Arial16, measure)
  }

  /** The first face occupies the first three commands. */
  lemma {:induction false} MarksHead(fs: seq<Face>, font: Font, measure: Measure)
    requires |fs| > 0
    ensures Marks(fs, font, measure)[0..3] == Mark(fs[0], font, measure)
  {
    var head := Mark(fs[0], font, measure);
    var rest := Marks(fs[1..], Arial16, measure);
    assert Marks(fs, font, measure) == head + rest;
    assert (head + rest)[0..3] == head;
  }

  /** Past the first face, the commands are those of the remaining faces, shifted by three. */
  lemma {:induction false} MarksShift(fs: seq<Face>, font: Font, measure: Measure, i: nat)
    requires 0 < i < |fs|
    ensures Marks(fs, font, measure)[3 * i..3 * i + 3] == Marks(fs[1..], Arial16, measure)[3 * (i - 1)..3 * (i - 1) + 3]
  {
    var head := Mark(fs[0], font, measure);
    var rest := Marks(fs[1..], Arial16, measure);
    assert Marks(fs, font, measure) == head + rest;
    SliceOfAppend(head, rest, 3 * i, 3 * i + 3);
  }

  /** The `i`-th face occupies commands `3 * i` to `3 * i + 2`, measured in the font then in effect. */
  lemma {:induction false} MarksAt(fs: seq<Face>, font: Font, measure: Measure, i: nat)
    requires i < |fs|
    ensures Marks(fs, font, measure)[3 * i..3 * i + 3] == Mark(fs[i], FontAt(i, font), measure)
  {
    if i == 0 {
      MarksHead(fs, font, measure);
    } else {
      MarksShift(fs, font, measure, i);
      MarksAt(fs[1..], Arial16, measure, i - 1);
      assert fs[1..][i - 1] == fs[i];
    }
  }

  /** A slice lying wholly in the second part of a concatenation is a slice of that part. */
  lemma {:induction false} SliceOfAppend<T>(a: seq<T>, b: seq<T>, lo: int, hi: int)
    requires |a| <= lo <= hi <= |a| + |b|
    ensures (a + b)[lo..hi] == b[lo - |a|..hi - |a|]
  {
  }

  /** The canvas of the given size, cleared whole, with the faces `fs` painted starting in `font`. */
  function Paint(width: nat, height: nat, fs: seq<Face>, font: Font, measure: Measure): (c: Canvas)
    ensures c.width == width && c.height == height
    ensures |c.ops| == 1 + 3 * |fs|
    ensures c.ops[0] == ClearRect(0.0, 0.0, width as real, height as real)
    ensures forall i :: 0 <= i < |fs| ==> c.ops[1 + 3 * i..4 + 3 * i] == Mark(fs[i], FontAt(i, font), measure)
  {
    var marks := Marks(fs, font, measure);
    var clear := [ClearRect(0.0, 0.0, width as real, height as real)];
    var ops := clear + marks;
    assert forall i :: 0 <= i < |fs| ==> ops[1 + 3 * i..4 + 3 * i] == Mark(fs[i], FontAt(i, font), measure) by {
      forall i | 0 <= i < |fs|
        ensures ops[1 + 3 * i..4 + 3 * i] == Mark(fs[i], FontAt(i, font), measure)
      {
        MarksAt(fs, font, measure, i);
        SliceOfAppend(clear, marks, 1 + 3 * i, 4 + 3 * i);
      }
    }
    Canvas(width, height, ops)
  }

  /**
   The canvas after one cycle's painting, as the code is written: the canvas
   takes the video's size, which also resets the context's font to its
   default, is cleared whole, and the faces are painted on it.
   */
  function Render(width: nat, height: nat, ds: seq<Detection>, measure: Measure): (c: Canvas)
    ensures c.width == width && c.height == height
    ensures |c.ops| == 1 + 3 * DrawnCount(ds)
    ensures c.ops[0] == ClearRect(0.0, 0.0, width as real, height as real)
    ensures forall i :: 0 <= i < DrawnCount(ds) ==>
              c.ops[1 + 3 * i..4 + 3 * i] == Mark(Faces(ds)[i], FontAt(i, CanvasDefault), measure)
  {
    Paint(width, height, Faces(ds), CanvasDefault, measure)
  }

  /**
   Where one face's three commands go: the outline on the face's box, a tag
   `TagHeight` tall standing on the box's top edge and as wide as the label
   measured in `font` plus padding, and the label's text inset from the box's
   top-left corner.
   */
  predicate MarkedAt(box: Op, tag: Op, text: Op, f: Face, width: real)
  {
    var b := f.box;
    && box == StrokeRect(b.x, b.y, b.width, b.height, BoxColor, BoxLineWidth)
    && tag.FillRect? && tag.x == b.x && tag.y + tag.h == b.y && tag.h == TagHeight
    && tag.w == width + TagPadding
    && text == FillText(f.text, b.x + TextInset, b.y - TextInset, Arial16, TextColor)
  }

  /** A face's commands are placed as `MarkedAt` says, and the text anchor lies in the tag when the width is not negative. */
  lemma {:induction false} MarkGeometry(f: Face, font: Font, measure: Measure)
    ensures var m := Mark(f, font, measure);
            && MarkedAt(m[0], m[1], m[2], f, measure(font, f.text))
            && (m[1].w >= TagPadding ==> m[1].x <= m[2].x <= m[1].x + m[1].w && m[1].y <= m[2].y <= m[1].y + m[1].h)
  {
  }

  /**
   Geometry of every painted face: the box outline sits on the face's box,
   the tag is `TagHeight` tall with its bottom edge on the box's top edge and
   is the measured width plus padding wide, and the text anchor lies inside
   the tag whenever the measured width is not negative.
   */
  lemma {:induction false} RenderGeometry(width: nat, height: nat, ds: seq<Detection>, measure: Measure, i: nat)
    requires i < DrawnCount(ds)
    ensures var c := Render(width, height, ds, measure);
            var box, tag, text := c.ops[1 + 3 * i], c.ops[2 + 3 * i], c.ops[3 + 3 * i];
            && MarkedAt(box, tag, text, Face(ds[i].box, Label(ds[i])), measure(FontAt(i, CanvasDefault), Label(ds[i])))
            && (tag.w >= TagPadding ==> tag.x <= text.x <= tag.x + tag.w && tag.y <= text.y <= tag.y + tag.h)
  {
    var c := Render(width, height, ds, measure);
    var f := Faces(ds)[i];
    assert f == Face(ds[i].box, Label(ds[i]));
    var m := Mark(f, FontAt(i, CanvasDefault), measure);
    MarkGeometry(f, FontAt(i, CanvasDefault), measure);
    assert c.ops[1 + 3 * i..4 + 3 * i] == m;
    assert c.ops[1 + 3 * i] == m[0] && c.ops[2 + 3 * i] == m[1] && c.ops[3 + 3 * i] == m[2];
  }

  /** The text painted by `text` ends inside the tag painted by `tag`, with the text measured in its own font. */
  predicate TextFitsTag(tag: Op, text: Op, measure: Measure)
  {
    && tag.FillRect? && text.FillText?
    && tag.x <= text.x
    && text.x + measure(text.font, text.text) <= tag.x + tag.w
  }

  /**
   As written, the first face's tag is measured in the context's default
   font, since resizing the canvas reset it, while its text is painted in
   16px Arial: the text fits its tag exactly when its 16px Arial width exceeds
   its default-font width by at most the inset. Every later face is measured
   in 16px Arial, left behind by the face before it.
   */
  lemma {:induction false} RenderFirstTagFits(width: nat, height: nat, ds: seq<Detection>, measure: Measure)
    requires DrawnCount(ds) > 0
    ensures var c := Render(width, height, ds, measure);
            var t := Label(ds[0]);
            TextFitsTag(c.ops[2], c.ops[3], measure) <==> measure(Arial16, t) <= measure(CanvasDefault, t) + TextInset
  {
    RenderGeometry(width, height, ds, measure, 0);
  }

  /**
   A concrete face whose label is 40 pixels wide in the default font and 64
   pixels wide in 16px Arial: as written, its text runs 19 pixels past the
   right edge of its tag.
   */
  lemma {:induction false} RenderFirstTagTooNarrow()
    ensures var measure: Measure := (f, t) => if f == CanvasDefault then 40.0 else 64.0;
            var d := Detection(Box(100.0, 80.0, 120.0, 150.0), [Entry("happy", 0.9)]);
            var c := Render(640, 480, [d], measure);
            && !TextFitsTag(c.ops[2], c.ops[3], measure)
            && c.ops[3].x + measure(c.ops[3].font, c.ops[3].text) == c.ops[2].x + c.ops[2].w + 19.0
  {
  }

  /**
   The painting with the font set to 16px Arial before each label is
   measured, so that the tag is sized for the text actually painted in it.
   */
  function RenderFixed(width: nat, height: nat, ds: seq<Detection>, measure: Measure): (c: Canvas)
    ensures c.width == width && c.height == height
    ensures |c.ops| == 1 + 3 * DrawnCount(ds)
    ensures c.ops[0] == ClearRect(0.0, 0.0, width as real, height as real)
    ensures forall i :: 0 <= i < DrawnCount(ds) ==>
              c.ops[1 + 3 * i..4 + 3 * i] == Mark(Faces(ds)[i], Arial16, measure)
  {
    var c := Paint(width, height, Faces(ds), Arial16, measure);
    assert forall i: nat :: FontAt(i, Arial16) == Arial16;
    c
  }

  /** With the font set before measuring, each face is placed as `MarkedAt` says, its label measured in 16px Arial. */
  lemma {:induction false} RenderFixedGeometry(width: nat, height: nat, ds: seq<Detection>, measure: Measure, i: nat)
    requires i < DrawnCount(ds)
    ensures var c := RenderFixed(width, height, ds, measure);
            MarkedAt(c.ops[1 + 3 * i], c.ops[2 + 3 * i], c.ops[3 + 3 * i],
                     Face(ds[i].box, Label(ds[i])), measure(Arial16, Label(ds[i])))
  {
    var c := RenderFixed(width, height, ds, measure);
    var f := Faces(ds)[i];
    assert f == Face(ds[i].box, Label(ds[i]));
    var m := Mark(f, Arial16, measure);
    MarkGeometry(f, Arial16, measure);
    assert c.ops[1 + 3 * i..4 + 3 * i] == m;
    assert c.ops[1 + 3 * i] == m[0] && c.ops[2 + 3 * i] == m[1] && c.ops[3 + 3 * i] == m[2];
  }

  /**
   With the font set before measuring, every painted face's text fits its
   tag, with the inset to spare on either side, whenever measured widths are
   not negative.
   */
  lemma {:induction false} RenderFixedTextFits(width: nat, height: nat, ds: seq<Detection>, measure: Measure, i: nat)
    requires i < DrawnCount(ds)
    requires measure(Arial16, Label(ds[i])) >= 0.0
    ensures var c := RenderFixed(width, height, ds, measure);
            && TextFitsTag(c.ops[2 + 3 * i], c.ops[3 + 3 * i], measure)
            && c.ops[3 + 3 * i].x - c.ops[2 + 3 * i].x == TextInset
            && c.ops[2 + 3 * i].x + c.ops[2 + 3 * i].w
               - (c.ops[3 + 3 * i].x + measure(Arial16, Label(ds[i]))) == TextInset
  {
    RenderFixedGeometry(width, height, ds, measure, i);
  }
}

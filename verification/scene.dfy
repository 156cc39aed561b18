/**
 * `plot_3d_model` (app.py:30-51): one `Mesh3d` trace per face, in order,
 * each with the face's coordinates unzipped into x, y and z and the same
 * fixed colour and opacity; the three axis backgrounds are switched off.
 */
module Scene {
  import opened Geometry

  const MeshColor: string := "blue"
  const MeshOpacity: real := 0.5

  /** A `go.Mesh3d` trace: one triangle given as three x, three y and three z values. */
  datatype Trace = Mesh3d(x: Triple<real>, y: Triple<real>, z: Triple<real>, color: string, opacity: real)

  /** The `showbackground` flag of the x, y and z axes. */
  datatype Layout = Layout(xBackground: bool, yBackground: bool, zBackground: bool)

  datatype Figure = Figure(traces: seq<Trace>, layout: Layout)

  /** The layout `update_layout` sets (app.py:44-50): no axis background. */
  const HiddenBackgrounds: Layout := Layout(false, false, false)

  /** Rows become columns: `zip(*m)` on three rows of three. */
  function Transpose<T>(m: Triple<Triple<T>>): Triple<Triple<T>>
  {
    Triple(Triple(m.first.first, m.second.first, m.third.first),
           Triple(m.first.second, m.second.second, m.third.second),
           Triple(m.first.third, m.second.third, m.third.third))
  }

  lemma TransposeInvolutive<T>(m: Triple<Triple<T>>)
    ensures Transpose(Transpose(m)) == m
  {
  }

  /**
   * The trace for one face (app.py:37-42): its x values are the x
   * coordinates of the face's three points in order, and likewise y and z;
   * the face can be read back from it unchanged.
   */
  function TraceOf(face: Face): (t: Trace)
    ensures t.x == Triple(face.first.first, face.second.first, face.third.first)
    ensures t.y == Triple(face.first.second, face.second.second, face.third.second)
    ensures t.z == Triple(face.first.third, face.second.third, face.third.third)
    ensures t.color == MeshColor && t.opacity == MeshOpacity
    ensures FaceOf(t) == face
  {
    var columns := Transpose(face);
    TransposeInvolutive(face);
    Mesh3d(columns.first, columns.second, columns.third, MeshColor, MeshOpacity)
  }

  /** The face a trace draws: its x, y and z values zipped back into points. */
  function FaceOf(t: Trace): Face
  {
    Transpose(Triple(t.x, t.y, t.z))
  }

  /** The faces a figure draws, trace by trace. */
  function FacesOf(fig: Figure): seq<Face>
  {
    seq(|fig.traces|, k requires 0 <= k < |fig.traces| => FaceOf(fig.traces[k]))
  }

  /**
   * `plot_3d_model` (app.py:30-51): exactly one trace per face, in the same
   * order, all blue at opacity 0.5, so that the figure draws exactly the
   * given faces; no merging, culling or reordering.
   */
  method PlotModel(faces: seq<Face>) returns (fig: Figure)
    ensures |fig.traces| == |faces|
    ensures forall k :: 0 <= k < |faces| ==>
      && fig.traces[k].x == Triple(faces[k].first.first, faces[k].second.first, faces[k].third.first)
      && fig.traces[k].y == Triple(faces[k].first.second, faces[k].second.second, faces[k].third.second)
      && fig.traces[k].z == Triple(faces[k].first.third, faces[k].second.third, faces[k].third.third)
      && fig.traces[k].color == MeshColor
      && fig.traces[k].opacity == MeshOpacity
    ensures forall k :: 0 <= k < |faces| ==> fig.traces[k] == TraceOf(faces[k])
    ensures FacesOf(fig) == faces
    ensures fig.layout == HiddenBackgrounds
  {
    var traces: seq<Trace> := [];
    var i := 0;
    while i < |faces|
      invariant 0 <= i <= |faces|
      invariant |traces| == i
      invariant forall k :: 0 <= k < i ==> traces[k] == TraceOf(faces[k])
    {
      traces := traces + [TraceOf(faces[i])];
      i := i + 1;
    }
    fig := Figure(traces, HiddenBackgrounds);
  }
}

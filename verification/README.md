# IFC-PlotViewer face extraction, in Dafny

A model of the one piece of original logic in IFC-PlotViewer, a small
Streamlit app that shows an uploaded IFC building model as a 3D mesh:

- `extract_faces` walks every `IfcProduct` of the model. It keeps the shape
  representations whose `RepresentationType` is exactly `'Tessellation'` and
  asks the geometry kernel to tessellate each one. It reshapes the flat
  vertex buffer and the flat index buffer into rows of three. It then turns
  each index triple into a face of three points. A failure on one
  representation becomes one error message naming its product, and the walk
  carries on. Faces appended from that representation before the failure
  stay in the result.
- `plot_3d_model` builds one blue `Mesh3d` trace with opacity 0.5 per face,
  in order, and hides the three axis backgrounds.
- `main` shows the chart when at least one face was extracted and the
  single "No faces could be extracted" error otherwise.

The IFC loader and the geometry kernel are foreign libraries. The model
graph is an input sequence of `Entity` records. The kernel is a function
parameter `Tessellator` that returns `ShapeError` or `Shape(verts, indices)`.

Modules, one per file:

- `Options` (`options.dfy`): `Option`.
- `Geometry` (`geometry.dfy`): `Triple`, `Point`, `Face`, and numpy's
  `reshape((-1, 3))` as `Reshape3`, together with its inverse `Flatten`.
- `Ifc` (`ifc.dfy`): entities, shape representations, the tessellator type and the `'Tessellation'` tag.
- `Extractor` (`extractor.dfy`): `extract_faces` as pure functions over sequences.
- `ExtractionProperties` (`properties.dfy`): per-representation results in
  terms of the flat buffers, plus order, concatenation and isolation of failures.
- `ExtractLoop` (`extract_loop.dfy`): the same walk written as the source
  writes it. Faces are appended to one list inside the index loop, and a
  `try` surrounds each representation. It is proved to produce the same faces and diagnostics as `Extractor.ExtractFaces`.
- `Scene` (`scene.dfy`): `plot_3d_model`.
- `Viewer` (`viewer.dfy`): the branch of `main` that follows the upload.
- `Scenarios` (`scenarios.dfy`): small concrete models. They cover one
  triangle, a failing product next to a good one, a representation that
  fails on its second triangle, and an untagged representation.

The index buffer is the one `app.py` reads from `geometry.edges`
(app.py:20). The model treats it only as the flat index buffer the kernel
returned and says nothing about what it means geometrically. The
`RepresentationType` comparison is with the literal `'Tessellation'`
(app.py:15), which is `Ifc.TessellationTag`.

## Model

| member | source | states |
|---|---|---|
| Geometry.GroupTail | app.py:19-20 | Reshaping takes the buffer three at a time from the front: the first row is the first three elements, and the remaining rows are the reshaped remainder |
| Geometry.FlattenGroup | app.py:19-20 | Reshaping loses nothing: flattening the rows gives back the original buffer |
| Geometry.GroupFlatten | app.py:19-20 | Reshaping is the inverse of flattening on any list of rows |
| Geometry.Reshape3 | app.py:19-20 | `reshape((-1, 3))` succeeds exactly when the length is a multiple of three, zero included; it then yields `len / 3` rows that flatten back to the input |
| Extractor.FirstOutOfRange | app.py:22 | The index reported for a bad triple is its first index, left to right, that is not below the vertex count |
| Extractor.Dereference | app.py:21-23 | Faces are one per index triple, in order; face k is the three points the triple names; the walk stops at the first triple with a missing vertex and keeps the faces before it; the error names that triple's first bad index and the vertex count |
| Extractor.DereferenceSucceedsIff | app.py:21-23 | Dereferencing reports no error exactly when every index triple is in range |
| Extractor.TessellatedFaces | app.py:19-20 | A vertex buffer that is not whole triples fails first and yields no face; otherwise an index buffer that is not whole triples fails and yields no face; never more than `len(indices) / 3` faces |
| Extractor.ProcessItem | app.py:15-27 | A representation not tagged `'Tessellation'` yields nothing and never reaches the tessellator; a tagged one is tessellated exactly once; it yields at most one diagnostic, and that diagnostic names the product |
| Extractor.TessellatedAppend | app.py:14-15 | Selecting tessellated representations commutes with concatenation |
| Extractor.ProcessRepsRequests | app.py:14-27 | Over one product's representations, exactly the tagged ones reach the tessellator, in order; there are no more diagnostics than tessellator calls, and all name the product |
| Extractor.ExtractFacesRequests | app.py:11-27 | Over the whole model, the tessellator sees exactly the tagged representations of products that have a `Representation`, in walk order; there are no more diagnostics than calls |
| Extractor.DiagnosticsNameProducts | app.py:11-13 | Every diagnostic names a product of the model that has a `Representation` |
| ExtractionProperties.ItemComplete | app.py:19-23 | With whole-triple buffers and every index in range, a representation yields exactly `len(indices) / 3` faces and no diagnostic; face k is `[P(idx[3k]), P(idx[3k+1]), P(idx[3k+2])]` with `P(j) = (verts[3j], verts[3j+1], verts[3j+2])` |
| ExtractionProperties.ItemStopsAtBadIndex | app.py:21-27 | If triple k is the first with a missing vertex, the k faces before it stay, later triples are skipped, and exactly one diagnostic names the product and the offending index |
| ExtractionProperties.ItemFailsWhole | app.py:16-20 | If the kernel raises, or either buffer is not whole triples, the representation yields no face and exactly one diagnostic naming the product and the failure |
| ExtractionProperties.ProcessRepsAppend | app.py:14-27 | Processing `a ++ b` gives the output for `a` followed by the output for `b` |
| ExtractionProperties.ExtractFacesAppend | app.py:10-11 | The output for `g1 ++ g2` is the output for `g1` followed by the output for `g2`: nothing is reordered, merged or dropped |
| ExtractionProperties.ExtractFacesSplit | app.py:11-28 | Whatever one entity does, failing halfway included, the entities before and after it contribute exactly what they contribute on their own, in place |
| ExtractionProperties.OnlyProductsMatter | app.py:11 | Removing every entity that is not an `IfcProduct` leaves faces, diagnostics and tessellator calls unchanged |
| ExtractionProperties.NoRepresentationNoFaces | app.py:12-13 | A model whose entities all lack a `Representation` yields no face, no diagnostic and no tessellator call |
| ExtractLoop.AppendFaces | app.py:21-23 | The index loop appends to the running list exactly the faces of the dereference, and returns its error |
| ExtractLoop.CollectItem | app.py:15-27 | The `try`/`except` around one representation appends exactly that representation's faces and diagnostics |
| ExtractLoop.CollectReps | app.py:14-27 | The representation loop appends exactly the product's faces and diagnostics |
| ExtractLoop.CollectEntity | app.py:12-27 | One pass of the product loop appends exactly that entity's faces and diagnostics |
| ExtractLoop.CollectFaces | app.py:6-28 | The nested loops return exactly the faces, and show exactly the errors, of the compositional model |
| Scene.TraceOf | app.py:37-42 | A face's trace has the x, y and z of its three points in order, colour `'blue'` and opacity 0.5; the face can be read back from the trace unchanged |
| Scene.PlotModel | app.py:30-51 | The figure has exactly one trace per face, in order; trace k is the blue, opacity 0.5 trace of face k with its coordinates unzipped; the figure draws exactly the given faces; all three axis backgrounds are off |
| Viewer.ShowUpload | app.py:57-64 | No upload gives no page. Otherwise the page shows the extraction errors, then a chart exactly when some face was extracted. The chart has one trace per extracted face, in order, each blue at opacity 0.5 with the face's coordinates, so it draws exactly the extracted faces; the alternative is the single "No faces could be extracted" message |
| Scenarios.SingleTriangle | app.py:19-23 | Vertices (0,0,0), (1,0,0), (0,1,0) with index triple (0,1,2) give exactly that one triangle |
| Scenarios.FailureDoesNotAbort | app.py:24-27 | A product whose tessellation fails gives one diagnostic naming it, and the next product's triangle is still extracted |
| Scenarios.PartialRepresentation | app.py:21-27 | A good triangle followed by a triple naming vertex 7 of 3 keeps the good triangle and reports index 7 |
| Scenarios.UntaggedSkipped | app.py:15 | A representation tagged otherwise is skipped even when the kernel would fail on it |

## Left out

- Streamlit UI: the page title, the upload widget and decoding the file as UTF-8 (app.py:54-58, 62). These are I/O; `Viewer.ShowUpload` takes the upload as an optional, already parsed model.
- Parsing with `ifcopenshell.file.from_string` and an uncaught parse error in `main` (app.py:58). Parsing belongs to a foreign library.
- `by_type("IfcProduct")` subtype resolution (app.py:11). Each `Entity` carries an `isProduct` flag that says whether the query yields it.
- The internals of `ifcopenshell.geom.create_shape` (app.py:18). It is the opaque `Tessellator` parameter, a deterministic function of the representation.
- Plotly rendering (app.py:38-50). The figure is a plain record of traces and the three `showbackground` flags.
- Floating point: coordinates are only copied, so they are `real`. Python's text formatting of the product and the exception in the message (app.py:26) is reduced to a `Diagnostic` of the product id and the failure kind.
- numpy negative indices, which wrap around (app.py:22). Indices are naturals, and a lookup fails exactly when the index is not below the vertex count.
- A strict, abort-on-first-error mode. The code has no such mode.

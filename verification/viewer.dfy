/**
 * The part of `main` (app.py:53-64) after the upload: extract the faces,
 * then either chart them or show the single "no faces" error. The page
 * title, the upload widget and parsing the file are left to the caller.
 */
module Viewer {
  import opened Options
  import opened Geometry
  import opened Ifc
  import opened Extractor
  import opened ExtractLoop
  import opened Scene

  const NoFacesMessage: string :=
    "No faces could be extracted from the uploaded IFC file. Please check the file or try another."

  /** What the page ends with: the chart, or the error box. */
  datatype Display = Chart(figure: Figure) | ErrorBox(message: string)

  /** One upload's page: the per-representation errors shown while extracting, then the display. */
  datatype Page = Page(errors: seq<Diagnostic>, display: Display)

  /**
   * `main` from the upload on (app.py:57-64). With no file there is no
   * page; otherwise the chart is shown exactly when some face was
   * extracted, and it draws exactly the extracted faces, one blue trace at
   * opacity 0.5 per face, in order.
   */
  method ShowUpload(tess: Tessellator, upload: Option<seq<Entity>>) returns (page: Option<Page>)
    ensures page.Some? <==> upload.Some?
    ensures upload.Some? ==>
      var extracted := ExtractFaces(tess, upload.value);
      && page.value.errors == extracted.diagnostics
      && (page.value.display.Chart? <==> |extracted.faces| > 0)
      && (page.value.display.Chart? ==>
            && |page.value.display.figure.traces| == |extracted.faces|
            && (forall k :: 0 <= k < |extracted.faces| ==>
                  page.value.display.figure.traces[k] == TraceOf(extracted.faces[k]))
            && FacesOf(page.value.display.figure) == extracted.faces
            && page.value.display.figure.layout == HiddenBackgrounds)
      && (page.value.display.ErrorBox? ==> page.value.display.message == NoFacesMessage)
  {
    if upload.None? {
      return None;
    }
    var faces, diagnostics := CollectFaces(tess, upload.value);
    if |faces| > 0 {
      var fig := PlotModel(faces);
      page := Some(Page(diagnostics, Chart(fig)));
    } else {
      page := Some(Page(diagnostics, ErrorBox(NoFacesMessage)));
    }
  }
}

/**
 * `extract_faces` as the source writes it (app.py:10-28): nested loops
 * that append each face to one shared list as soon as it is built, and a
 * `try`/`except` around each tessellated representation. Proved to
 * produce exactly the faces and diagnostics of `Extractor.ExtractFaces`.
 */
module ExtractLoop {
  import opened Options
  import opened Geometry
  import opened Ifc
  import opened Extractor
  import opened ExtractionProperties

  /** One more representation at the end of the list adds its extraction at the end. */
  lemma ProcessRepsSnoc(tess: Tessellator, product: nat, reps: seq<ShapeRepresentation>, j: nat)
    requires j < |reps|
    ensures ProcessReps(tess, product, reps[..j + 1])
         == ProcessReps(tess, product, reps[..j]).Then(ProcessItem(tess, product, reps[j]))
  {
    assert reps[..j + 1] == reps[..j] + [reps[j]];
    ProcessRepsAppend(tess, product, reps[..j], [reps[j]]);
    ProcessRepsCons(tess, product, reps[j], []);
    assert [reps[j]] + [] == [reps[j]];
    ThenNothing(ProcessItem(tess, product, reps[j]));
  }

  /** One more entity at the end of the model adds its extraction at the end. */
  lemma ExtractFacesSnoc(tess: Tessellator, graph: seq<Entity>, i: nat)
    requires i < |graph|
    ensures ExtractFaces(tess, graph[..i + 1])
         == ExtractFaces(tess, graph[..i]).Then(ProcessEntity(tess, graph[i]))
  {
    assert graph[..i + 1] == graph[..i] + [graph[i]];
    ExtractFacesAppend(tess, graph[..i], [graph[i]]);
    ExtractFacesCons(tess, graph[i], []);
    assert [graph[i]] + [] == [graph[i]];
    ThenNothing(ProcessEntity(tess, graph[i]));
  }

  /**
   * The index loop (app.py:21-23): appends to `acc` one face per index
   * triple and stops at the first triple naming a missing vertex, keeping
   * what it appended.
   */
  method AppendFaces(acc: seq<Face>, points: seq<Point>, triples: seq<Triple<nat>>)
    returns (faces: seq<Face>, error: Option<ExtractError>)
    ensures faces == acc + Dereference(points, triples).faces
    ensures error == Dereference(points, triples).error
  {
    faces := acc;
    var k := 0;
    while k < |triples|
      invariant 0 <= k <= |triples|
      invariant acc + Dereference(points, triples).faces == faces + Dereference(points, triples[k..]).faces
      invariant Dereference(points, triples).error == Dereference(points, triples[k..]).error
    {
      var t := triples[k];
      if !InRange(points, t) {
        return faces, Some(IndexOutOfRange(FirstOutOfRange(points, t), |points|));
      }
      assert triples[k..][1..] == triples[k + 1..];
      faces := faces + [Resolve(points, t)];
      k := k + 1;
    }
    assert triples[k..] == [];
    error := None;
  }

  /** The `try`/`except` around one representation (app.py:15-27). */
  method CollectItem(tess: Tessellator, product: nat, rep: ShapeRepresentation, acc: seq<Face>, log: seq<Diagnostic>)
    returns (faces: seq<Face>, diagnostics: seq<Diagnostic>)
    ensures faces == acc + ProcessItem(tess, product, rep).faces
    ensures diagnostics == log + ProcessItem(tess, product, rep).diagnostics
  {
    faces, diagnostics := acc, log;
    if rep.representationType == Some(TessellationTag) {
      match tess(rep) {
        case ShapeError =>
          diagnostics := diagnostics + [Diagnostic(product, ShapeFailed)];
        case Shape(verts, indices) =>
          var points := Reshape3(verts);
          if points.None? {
            diagnostics := diagnostics + [Diagnostic(product, VertexBufferNotTriples(|verts|))];
          } else {
            var triples := Reshape3(indices);
            if triples.None? {
              diagnostics := diagnostics + [Diagnostic(product, IndexBufferNotTriples(|indices|))];
            } else {
              var error;
              faces, error := AppendFaces(faces, points.value, triples.value);
              diagnostics := diagnostics + Report(product, error);
            }
          }
      }
    }
  }

  /** The loop over one product's shape representations (app.py:14-27). */
  method CollectReps(tess: Tessellator, product: nat, reps: seq<ShapeRepresentation>, acc: seq<Face>, log: seq<Diagnostic>)
    returns (faces: seq<Face>, diagnostics: seq<Diagnostic>)
    ensures faces == acc + ProcessReps(tess, product, reps).faces
    ensures diagnostics == log + ProcessReps(tess, product, reps).diagnostics
  {
    faces, diagnostics := acc, log;
    ghost var done := Nothing;
    var j := 0;
    while j < |reps|
      invariant 0 <= j <= |reps|
      invariant done == ProcessReps(tess, product, reps[..j])
      invariant faces == acc + done.faces && diagnostics == log + done.diagnostics
    {
      ghost var item := ProcessItem(tess, product, reps[j]);
      ProcessRepsSnoc(tess, product, reps, j);
      faces, diagnostics := CollectItem(tess, product, reps[j], faces, diagnostics);
      AppendAssociative(acc, done.faces, item.faces);
      AppendAssociative(log, done.diagnostics, item.diagnostics);
      done := done.Then(item);
      j := j + 1;
    }
    assert reps[..j] == reps;
  }

  /** One pass of the outer loop body (app.py:12-27): nothing unless the product has a `Representation`. */
  method CollectEntity(tess: Tessellator, product: Entity, acc: seq<Face>, log: seq<Diagnostic>)
    returns (faces: seq<Face>, diagnostics: seq<Diagnostic>)
    ensures faces == acc + ProcessEntity(tess, product).faces
    ensures diagnostics == log + ProcessEntity(tess, product).diagnostics
  {
    if product.isProduct && product.representation.Some? {
      faces, diagnostics := CollectReps(tess, product.id, product.representation.value, acc, log);
    } else {
      faces, diagnostics := acc, log;
      assert acc + [] == acc && log + [] == log;
    }
  }

  /**
   * `extract_faces` (app.py:6-28) with its loops: the faces it returns and
   * the errors it shows are those of the functional model.
   */
  method CollectFaces(tess: Tessellator, graph: seq<Entity>) returns (faces: seq<Face>, diagnostics: seq<Diagnostic>)
    ensures faces == ExtractFaces(tess, graph).faces
    ensures diagnostics == ExtractFaces(tess, graph).diagnostics
  {
    faces, diagnostics := [], [];
    var i := 0;
    while i < |graph|
      invariant 0 <= i <= |graph|
      invariant faces == ExtractFaces(tess, graph[..i]).faces
      invariant diagnostics == ExtractFaces(tess, graph[..i]).diagnostics
    {
      ExtractFacesSnoc(tess, graph, i);
      faces, diagnostics := CollectEntity(tess, graph[i], faces, diagnostics);
      i := i + 1;
    }
    assert graph[..i] == graph;
  }
}
